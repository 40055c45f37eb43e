/** The release queue. */
module ReleaseQueue {
  import opened Common

  // Which merge is released next and under which version is decided anew after every restart, from the merges
  // since the last release, the tags that exist, and failed releases.

  datatype Bump = Patch | Minor | Major

  datatype Version = Version(major: nat, minor: nat, patch: nat)

  datatype Sha = Sha(text: string)

  datatype Intent = NoRelease | Asks(bump: Bump)

  /** Older merges state an intent instead of a bump. */
  datatype Merge = Merge(commit: Sha, bump: Option<Bump>, intent: Option<Intent>)

  datatype Tag = Tag(version: Version, commit: Sha)

  datatype Decision =
    | Deploy(commit: Sha, version: Version)
    | Release(item: Merge, at: nat, bump: Bump, version: Version)

  datatype Refusal =
    | AmbiguousTombstones | TombstoneWithoutSource | UnownedReservations | TombstoneMismatch
    | TombstoneUnreserved | NoCatchUpSource | AmbiguousCatchUp | CatchUpMismatch | CatchUpNotCurrent
    | AmbiguousReservations | ReservationMismatch | NoEnforcementMarker

  datatype Outcome<T> = Decided(value: T) | Refused(reason: Refusal)

  // ----- Versions and bumps ------------------------------------------------------------------------------------

  function Next(v: Version, bump: Bump): Version {
    match bump
    case Major => Version(v.major + 1, 0, 0)
    case Minor => Version(v.major, v.minor + 1, 0)
    case Patch => Version(v.major, v.minor, v.patch + 1)
  }

  predicate Above(v: Version, w: Version) {
    || v.major > w.major
    || (v.major == w.major && (v.minor > w.minor || (v.minor == w.minor && v.patch > w.patch)))
  }

  function BumpFor(m: Merge): Option<Bump> {
    if m.bump.Some? then m.bump
    else if m.intent.Some? && m.intent.value.Asks? then Some(m.intent.value.bump)
    else None
  }

  predicate Bearing(m: Merge) {
    BumpFor(m).Some?
  }

  function BumpOf(m: Merge): seq<Bump> {
    if Bearing(m) then [BumpFor(m).value] else []
  }

  function Bumps(merges: seq<Merge>): seq<Bump> {
    if merges == [] then [] else BumpOf(merges[0]) + Bumps(merges[1..])
  }

  function CombinedBump(merges: seq<Merge>): Option<Bump> {
    var bumps := Bumps(merges);
    if Major in bumps then Some(Major)
    else if Minor in bumps then Some(Minor)
    else if Patch in bumps then Some(Patch)
    else None
  }

  lemma {:induction false} BumpsAre(merges: seq<Merge>, b: Bump)
    ensures b in Bumps(merges) <==> exists i :: 0 <= i < |merges| && BumpFor(merges[i]) == Some(b)
  {
    if merges != [] {
      BumpsAre(merges[1..], b);
      if b in Bumps(merges[1..]) {
        var i :| 0 <= i < |merges[1..]| && BumpFor(merges[1..][i]) == Some(b);
        assert BumpFor(merges[i + 1]) == Some(b);
      }
      if i :| 0 <= i < |merges| && BumpFor(merges[i]) == Some(b) {
        assert i > 0 ==> merges[1..][i - 1] == merges[i];
      }
    }
  }

  /** A merge asks for a bump by stating it or, if it states none, by its intent. */
  ghost predicate AsksFor(m: Merge, b: Bump) {
    m.bump == Some(b) || (m.bump == None && m.intent == Some(Asks(b)))
  }

  ghost predicate Larger(a: Bump, b: Bump) {
    (a == Major && b != Major) || (a == Minor && b == Patch)
  }

  ghost predicate Asked(merges: seq<Merge>, b: Bump) {
    exists i :: 0 <= i < |merges| && AsksFor(merges[i], b)
  }

  /** Some merge asks for this bump, and none for a larger one. */
  ghost predicate LargestAskedFor(merges: seq<Merge>, b: Bump) {
    Asked(merges, b) && forall c :: Asked(merges, c) ==> !Larger(c, b)
  }

  ghost predicate NoneAsks(merges: seq<Merge>) {
    forall b :: !Asked(merges, b)
  }

  lemma BumpForExactly(m: Merge, b: Bump)
    ensures BumpFor(m) == Some(b) <==> AsksFor(m, b)
  {
  }

  /** The combined bump is the largest that any of the merges asks for. */
  lemma CombinedIsLargest(merges: seq<Merge>)
    ensures CombinedBump(merges) == None <==> NoneAsks(merges)
    ensures forall b :: CombinedBump(merges) == Some(b) <==> LargestAskedFor(merges, b)
  {
    forall b ensures b in Bumps(merges) <==> Asked(merges, b) {
      BumpsAre(merges, b);
      forall m ensures BumpFor(m) == Some(b) <==> AsksFor(m, b) {
        BumpForExactly(m, b);
      }
    }
    hide Asked, Bumps;
    assert Asked(merges, Major) <==> Major in Bumps(merges);
    assert Asked(merges, Minor) <==> Minor in Bumps(merges);
    assert Asked(merges, Patch) <==> Patch in Bumps(merges);
    forall b | Asked(merges, b) ensures CombinedBump(merges) != None {
      match b case Major => case Minor => case Patch =>
    }
  }

  /** The parts of a version, and which of them a bump raises. */
  function Parts(v: Version): seq<nat> {
    [v.major, v.minor, v.patch]
  }

  function Place(b: Bump): nat {
    if b == Major then 0 else if b == Minor then 1 else 2
  }

  /** A bump leaves the parts before its own, raises its own by one, and sets those after it to 0. */
  lemma NextExactly(v: Version, b: Bump, w: Version)
    ensures w == Next(v, b) <==>
      && (forall k :: 0 <= k < Place(b) ==> Parts(w)[k] == Parts(v)[k]) && Parts(w)[Place(b)] == Parts(v)[Place(b)] + 1
      && (forall k :: Place(b) < k < 3 ==> Parts(w)[k] == 0)
  {
    assert w.major == Parts(w)[0] && w.minor == Parts(w)[1] && w.patch == Parts(w)[2];
    assert v.major == Parts(v)[0] && v.minor == Parts(v)[1] && v.patch == Parts(v)[2];
  }

  // ----- The decision ------------------------------------------------------------------------------------------

  /** The place of the oldest merge that asks for a release. */
  function Pending(merges: seq<Merge>): (r: Option<nat>)
    ensures r.Some? ==> r.value < |merges| && Bearing(merges[r.value])
                        && forall i :: 0 <= i < r.value ==> !Bearing(merges[i])
    ensures r.None? ==> forall i :: 0 <= i < |merges| ==> !Bearing(merges[i])
  {
    if merges == [] then None
    else if Bearing(merges[0]) then Some(0)
    else
      assert forall i :: 0 < i < |merges| ==> merges[i] == merges[1..][i - 1];
      match Pending(merges[1..])
      case None => None
      case Some(i) => Some(i + 1)
  }

  function Others(tags: seq<Tag>, tag: Tag): seq<Tag> {
    if tags == [] then []
    else (if tags[0] != tag then [tags[0]] else []) + Others(tags[1..], tag)
  }

  function Decide(currentMain: Sha, merges: seq<Merge>, published: Version, reservations: seq<Tag>,
                  tombstones: seq<Tag>)
    : Outcome<Decision>
  {
    if |tombstones| > 1 then Refused(AmbiguousTombstones)
    else
      match Pending(merges)
      case None =>
        if |tombstones| == 1 then Refused(TombstoneWithoutSource)
        else if |reservations| > 0 then Refused(UnownedReservations)
        else Decided(Deploy(currentMain, published))
      case Some(at) =>
        var item, bump := merges[at], BumpFor(merges[at]).value;
        var version := Next(published, bump);
        if |tombstones| == 1 then
          DecideCatchUp(currentMain, merges, at, Tag(version, item.commit), reservations, tombstones[0])
        else if |reservations| > 1 then Refused(AmbiguousReservations)
        else if |reservations| == 1 && reservations[0] != Tag(version, item.commit) then Refused(ReservationMismatch)
        else Decided(Release(item, at, bump, version))
  }

  /** What follows the release of the oldest merge if that has failed for good. */
  function DecideCatchUp(currentMain: Sha, merges: seq<Merge>, at: nat, failed: Tag, reservations: seq<Tag>,
                         tombstone: Tag)
    : Outcome<Decision>
    requires at < |merges|
  {
    if tombstone != failed then Refused(TombstoneMismatch)
    else if tombstone !in reservations then Refused(TombstoneUnreserved)
    else
      match CombinedBump(merges[at + 1..])
      case None => Refused(NoCatchUpSource)
      case Some(bump) =>
        var version, active := Next(failed.version, bump), Others(reservations, tombstone);
        var item := merges[|merges| - 1];
        if |active| > 1 then Refused(AmbiguousCatchUp)
        else if |active| == 1 && active[0] != Tag(version, currentMain) then Refused(CatchUpMismatch)
        else if item.commit != currentMain then Refused(CatchUpNotCurrent)
        else Decided(Release(item, |merges| - 1, bump, version))
  }

  /** The merges the queue owns: all of them once enforcement is under way, else those from its marker on. */
  function EnforcedCommits(alreadyEnforced: bool, commits: seq<Sha>, marker: Option<nat>): Outcome<seq<Sha>>
    requires marker.Some? ==> marker.value < |commits|
  {
    if commits == [] then Decided([])
    else if !alreadyEnforced && marker.None? then Refused(NoEnforcementMarker)
    else Decided(if alreadyEnforced then commits else commits[marker.value..])
  }

  /** Releasing past the marker does not bring back what came before it. */
  lemma EnforcementLasts(commits: seq<Sha>, marker: nat, released: nat)
    requires marker < released <= |commits|
    ensures var first := EnforcedCommits(false, commits, Some(marker));
            first.Decided? && EnforcedCommits(true, commits[released..], None) ==
                Decided(first.value[released - marker..])
  {
    assert commits[marker..][released - marker..] == commits[released..];
  }

  // ----- One decision ------------------------------------------------------------------------------------------

  lemma {:induction false} OthersAppend(a: seq<Tag>, b: seq<Tag>, tag: Tag)
    ensures Others(a + b, tag) == Others(a, tag) + Others(b, tag)
  {
    if a == [] {
      assert a + b == b;
    } else {
      assert (a + b)[1..] == a[1..] + b;
      OthersAppend(a[1..], b, tag);
    }
  }

  lemma {:induction false} OthersAre(tags: seq<Tag>, tag: Tag)
    ensures forall t :: t in Others(tags, tag) <==> t in tags && t != tag
    ensures forall k :: 0 <= k < |Others(tags, tag)| ==> Others(tags, tag)[k] in tags && Others(tags, tag)[k] != tag
  {
    if tags != [] {
      OthersAre(tags[1..], tag);
    }
  }

  /** The reservations with one tag added, wherever the order of versions puts it. */
  function Inserted(tags: seq<Tag>, i: nat, tag: Tag): seq<Tag>
    requires i <= |tags|
  {
    tags[..i] + [tag] + tags[i..]
  }

  /** A release that a restart finds reserved is decided again: the decision's own tag changes nothing. */
  lemma OwnReservationChangesNothing(currentMain: Sha, merges: seq<Merge>, published: Version,
                                     reservations: seq<Tag>, tombstones: seq<Tag>, i: nat)
    requires var d := Decide(currentMain, merges, published, reservations, tombstones);
             d.Decided? && d.value.Release? && Tag(d.value.version, d.value.item.commit) !in reservations
    requires i <= |reservations|
    ensures var d := Decide(currentMain, merges, published, reservations, tombstones);
            var own := Tag(d.value.version, d.value.item.commit);
            Decide(currentMain, merges, published, Inserted(reservations, i, own), tombstones) == d
  {
    if |tombstones| == 1 {
      var d := Decide(currentMain, merges, published, reservations, tombstones).value;
      OthersInserted(reservations, i, Tag(d.version, d.item.commit), tombstones[0]);
    }
  }

  lemma OthersInserted(tags: seq<Tag>, i: nat, own: Tag, tag: Tag)
    requires i <= |tags| && own !in tags && tag in tags
    ensures tag in Inserted(tags, i, own)
    ensures forall k :: 0 <= k < |Others(tags, tag)| ==> Others(tags, tag)[k] != own
    ensures Others(tags, tag) == [] ==> Others(Inserted(tags, i, own), tag) == [own]
  {
    OthersAre(tags, tag);
    OthersAppend(tags[..i], tags[i..], tag);
    assert tags[..i] + tags[i..] == tags;
    OthersAppend(tags[..i] + [own], tags[i..], tag);
    OthersAppend(tags[..i], [own], tag);
    assert Others([own], tag) == [own];
    assert tag in tags[..i] || tag in tags[i..];
  }

  /** Merges that come in later do not change which release is next. */
  lemma LaterMergesChangeNothing(currentMain: Sha, merges: seq<Merge>, published: Version, reservations: seq<Tag>,
                                 later: seq<Merge>, newMain: Sha)
    requires var d := Decide(currentMain, merges, published, reservations, []); d.Decided? && d.value.Release?
    ensures Decide(newMain, merges + later, published, reservations, []) ==
        Decide(currentMain, merges, published, reservations, [])
  {
    PendingStays(merges, later);
  }

  lemma PendingStays(merges: seq<Merge>, later: seq<Merge>)
    requires Pending(merges).Some?
    ensures Pending(merges + later) == Pending(merges)
  {
    var all := merges + later;
    var i := Pending(merges).value;
    assert all[i] == merges[i] && forall k :: 0 <= k < i ==> all[k] == merges[k];
    assert Pending(all).Some?;
    var j := Pending(all).value;
    assert !(j < i) && !(i < j);
  }

  /** The oldest merge that asks for a release is the failed one, and `bump` is the largest asked for after it. */
  ghost predicate CatchesUp(merges: seq<Merge>, failed: Sha, bump: Bump) {
    exists first :: 0 <= first < |merges| && Pending(merges) == Some(first) && merges[first].commit == failed
      && CombinedBump(merges[first + 1..]) == Some(bump)
  }

  /**
   A failed release leads to one catch-up: two bumps on, the second the largest asked for since, at the last
   merge.
   */
  lemma TombstoneLeadsToCatchUp(currentMain: Sha, merges: seq<Merge>, published: Version, reservations: seq<Tag>,
                                tombstone: Tag)
    requires Decide(currentMain, merges, published, reservations, [tombstone]).Decided?
    ensures var d := Decide(currentMain, merges, published, reservations, [tombstone]).value;
            && d.Release? && d.at == |merges| - 1 && d.item == merges[d.at] && d.item.commit == currentMain
            && Above(tombstone.version, published) && Above(d.version, tombstone.version)
            && d.version == Next(tombstone.version, d.bump)
            && CatchesUp(merges, tombstone.commit, d.bump)
            && (forall t :: t in reservations ==> t == tombstone || t == Tag(d.version, currentMain))
  {
    OthersAre(reservations, tombstone);
    var active := Others(reservations, tombstone);
    forall t | t in active ensures t == active[0] {
    }
  }

  // ----- When there is a decision ------------------------------------------------------------------------------

  /** The tag that is due to the oldest merge that asks for a release. */
  function NextTag(merges: seq<Merge>, published: Version): Option<Tag> {
    match Pending(merges)
    case None => None
    case Some(at) => Some(Tag(Next(published, BumpFor(merges[at]).value), merges[at].commit))
  }

  /** The tag of the catch-up at the last of these merges, should the release of the oldest one fail for good. */
  function CatchUpTag(merges: seq<Merge>, published: Version): Option<Tag> {
    match Pending(merges)
    case None => None
    case Some(at) =>
      match CombinedBump(merges[at + 1..])
      case None => None
      case Some(bump) =>
        Some(Tag(Next(Next(published, BumpFor(merges[at]).value), bump), merges[|merges| - 1].commit))
  }

  /**
   Without a failed release, the queue knows what to do exactly if no tag is reserved but the one that is due, and
   that is listed once.
   */
  lemma UnfailedDecidesExactly(currentMain: Sha, merges: seq<Merge>, published: Version, reservations: seq<Tag>)
    ensures Decide(currentMain, merges, published, reservations, []).Decided? <==>
      Distinct(reservations) && forall t :: t in reservations ==> NextTag(merges, published) == Some(t)
  {
    OneAtMost(reservations, NextTag(merges, published));
  }

  lemma AtMostOne(tags: seq<Tag>, tag: Option<Tag>)
    requires Distinct(tags) && forall t :: t in tags ==> tag == Some(t)
    ensures tags == [] || (|tags| == 1 && tag == Some(tags[0]))
  {
    forall k | 0 <= k < |tags| ensures tag == Some(tags[k]) {
      assert tags[k] in tags;
    }
    FirstTwoDiffer(tags);
  }

  lemma FirstTwoDiffer(tags: seq<Tag>)
    requires Distinct(tags)
    ensures |tags| > 1 ==> tags[0] != tags[1]
  {
  }

  /**
   With one failed release, it does exactly if that is the oldest merge's, its tag is reserved, a later merge asks
   for a release, and no third tag is reserved but the catch-up's, once, at the current main, which is the last merge.
   */
  lemma CatchUpDecidesExactly(currentMain: Sha, merges: seq<Merge>, published: Version, reservations: seq<Tag>,
                              tombstone: Tag)
    ensures Decide(currentMain, merges, published, reservations, [tombstone]).Decided? <==>
      && NextTag(merges, published) == Some(tombstone) && tombstone in reservations
      && CatchUpTag(merges, published).Some? && CatchUpTag(merges, published).value.commit == currentMain
      && Distinct(Others(reservations, tombstone))
      && forall t :: t in reservations ==> t == tombstone || CatchUpTag(merges, published) == Some(t)
  {
    hide Decide, CatchUpTag, NextTag;
    AnswerAfterFailure(currentMain, merges, published, reservations, tombstone);
    OthersAre(reservations, tombstone);
    OneAtMost(Others(reservations, tombstone), CatchUpTag(merges, published));
  }

  /** The same, with the other reservations as a list. */
  lemma AnswerAfterFailure(currentMain: Sha, merges: seq<Merge>, published: Version, reservations: seq<Tag>,
                           tombstone: Tag)
    ensures var active, catchUp := Others(reservations, tombstone), CatchUpTag(merges, published);
      Decide(currentMain, merges, published, reservations, [tombstone]).Decided? <==>
        && NextTag(merges, published) == Some(tombstone) && tombstone in reservations
        && catchUp.Some? && catchUp.value.commit == currentMain && (active == [] || active == [catchUp.value])
  {
  }

  lemma OneAtMost(tags: seq<Tag>, tag: Option<Tag>)
    ensures tags == [] || (tag.Some? && tags == [tag.value]) <==>
              Distinct(tags) && forall t :: t in tags ==> tag == Some(t)
  {
    if Distinct(tags) && forall t :: t in tags ==> tag == Some(t) {
      AtMostOne(tags, tag);
    }
  }

  lemma {:induction false} OthersDistinct(tags: seq<Tag>, tag: Tag)
    requires Distinct(tags)
    ensures Distinct(Others(tags, tag))
  {
    if tags != [] {
      assert tags == [tags[0]] + tags[1..];
      DistinctParts([tags[0]], tags[1..]);
      OthersDistinct(tags[1..], tag);
      OthersAre(tags[1..], tag);
    }
  }

  // ----- Why there is none -------------------------------------------------------------------------------------

  ghost predicate OldestAsking(merges: seq<Merge>, at: int) {
    && 0 <= at < |merges| && NoneAsks(merges[..at])
    && exists b :: AsksFor(merges[at], b)
  }

  lemma PendingExactly(merges: seq<Merge>)
    ensures Pending(merges) == None <==> NoneAsks(merges)
    ensures forall at :: Pending(merges) == Some(at) ==> OldestAsking(merges, at)
  {
    forall m, b ensures BumpFor(m) == Some(b) <==> AsksFor(m, b) {
      BumpForExactly(m, b);
    }
    hide AsksFor, BumpFor;
    if Pending(merges) == None {
      assert forall i :: 0 <= i < |merges| ==> !Bearing(merges[i]);
    } else {
      var at := Pending(merges).value;
      assert forall i :: 0 <= i < at ==> merges[..at][i] == merges[i];
      assert AsksFor(merges[at], BumpFor(merges[at]).value);
      assert Asked(merges, BumpFor(merges[at]).value);
    }
  }

  /** One thing that is asked of the state before a decision, and the reason of a refusal where it is not so. */
  datatype Demand = Demand(met: bool, reason: Refusal)

  /** All that is asked, in order, with the tags that are due to the oldest merge and to the catch-up. */
  ghost function Demands(currentMain: Sha, merges: seq<Merge>, published: Version, reservations: seq<Tag>,
                         tombstones: seq<Tag>): seq<Demand> {
    var due, catchUp := NextTag(merges, published), CatchUpTag(merges, published);
    if |tombstones| > 1 then [Demand(false, AmbiguousTombstones)]
    else if due == None then
      [Demand(tombstones == [], TombstoneWithoutSource), Demand(reservations == [], UnownedReservations)]
    else if tombstones == [] then
      [Demand(|reservations| <= 1, AmbiguousReservations),
       Demand(forall t :: t in reservations ==> due == Some(t), ReservationMismatch)]
    else
      var others := Others(reservations, tombstones[0]);
      [Demand(due == Some(tombstones[0]), TombstoneMismatch),
       Demand(tombstones[0] in reservations, TombstoneUnreserved),
       Demand(catchUp.Some?, NoCatchUpSource),
       Demand(|others| <= 1, AmbiguousCatchUp),
       Demand(catchUp.Some? && forall t :: t in others ==> t == Tag(catchUp.value.version, currentMain),
              CatchUpMismatch),
       Demand(catchUp.Some? && catchUp.value.commit == currentMain, CatchUpNotCurrent)]
  }

  ghost predicate AllMet(demands: seq<Demand>) {
    forall i :: 0 <= i < |demands| ==> demands[i].met
  }

  /** The first demand that is not met gives the reason; with all met the queue deploys or releases. */
  lemma RefusedForTheFirstUnmet(currentMain: Sha, merges: seq<Merge>, published: Version, reservations: seq<Tag>,
                                tombstones: seq<Tag>)
    ensures var outcome, demands := Decide(currentMain, merges, published, reservations, tombstones),
                                    Demands(currentMain, merges, published, reservations, tombstones);
      && (outcome.Decided? <==> AllMet(demands))
      && (forall i :: 0 <= i < |demands| && !demands[i].met && AllMet(demands[..i]) ==>
            outcome == Refused(demands[i].reason))
  {
    OneMember(reservations);
    if |tombstones| == 1 {
      OneMember(Others(reservations, tombstones[0]));
    }
    var demands := Demands(currentMain, merges, published, reservations, tombstones);
    var outcome := Decide(currentMain, merges, published, reservations, tombstones);
    FirstUnmetUnfolds(demands);
    assert outcome.Decided? <==> FirstUnmet(demands) == None;
    assert outcome.Refused? ==> FirstUnmet(demands) == Some(outcome.reason);
    FirstUnmetExactly(demands);
  }

  lemma FirstUnmetUnfolds(demands: seq<Demand>)
    requires 1 <= |demands| <= 6
    ensures FirstUnmet(demands) ==
      if !demands[0].met then Some(demands[0].reason)
      else if |demands| > 1 && !demands[1].met then Some(demands[1].reason)
      else if |demands| > 2 && !demands[2].met then Some(demands[2].reason)
      else if |demands| > 3 && !demands[3].met then Some(demands[3].reason)
      else if |demands| > 4 && !demands[4].met then Some(demands[4].reason)
      else if |demands| > 5 && !demands[5].met then Some(demands[5].reason)
      else None
  {
    if |demands| > 1 {
      FirstUnmetUnfolds(demands[1..]);
    }
  }

  ghost function FirstUnmet(demands: seq<Demand>): Option<Refusal> {
    if demands == [] then None
    else if !demands[0].met then Some(demands[0].reason)
    else FirstUnmet(demands[1..])
  }

  lemma {:induction false} FirstUnmetExactly(demands: seq<Demand>)
    ensures FirstUnmet(demands) == None <==> AllMet(demands)
    ensures forall i :: 0 <= i < |demands| && !demands[i].met && AllMet(demands[..i]) ==>
              FirstUnmet(demands) == Some(demands[i].reason)
  {
    if demands != [] {
      FirstUnmetExactly(demands[1..]);
      assert AllMet(demands) <==> demands[0].met && AllMet(demands[1..]);
      forall i | 0 <= i < |demands| && !demands[i].met && AllMet(demands[..i])
        ensures FirstUnmet(demands) == Some(demands[i].reason)
      {
        if i > 0 {
          assert demands[..i][0].met && demands[1..][i - 1] == demands[i];
          assert demands[1..][..i - 1] == demands[..i][1..];
        }
      }
    }
  }

  lemma OneMember(tags: seq<Tag>)
    ensures |tags| == 1 ==> tags[0] in tags && forall t :: t in tags ==> t == tags[0]
  {
  }

  /**
   Without a failed release: the current main is deployed if no merge asks, and else the oldest that does is
   released.
   */
  lemma UnfailedDecision(currentMain: Sha, merges: seq<Merge>, published: Version, reservations: seq<Tag>)
    requires Decide(currentMain, merges, published, reservations, []).Decided?
    ensures var d := Decide(currentMain, merges, published, reservations, []).value;
      && (NoneAsks(merges) ==> d == Deploy(currentMain, published))
      && (!NoneAsks(merges) ==>
            && d.Release? && OldestAsking(merges, d.at) && d.item == merges[d.at] && AsksFor(d.item, d.bump)
            && d.version == Next(published, d.bump))
  {
    PendingExactly(merges);
    if Pending(merges).Some? {
      BumpForExactly(merges[Pending(merges).value], BumpFor(merges[Pending(merges).value]).value);
    }
  }
}
