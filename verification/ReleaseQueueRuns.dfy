/** The release queue over whole runs. */
module ReleaseQueueRuns {
  import opened Common
  import opened ReleaseHandoff
  import opened ReleaseQueue

  // A round decides from what is durable alone: the merges on the main branch, the last published release, the
  // tags, the release runs and the failed releases.  It reserves the tag it decided on, and starts the release run of
  // a tag that is reserved, twice at most.  A run works on its own: it publishes its tag, whatever was merged in the
  // meantime, or it stops.  A round may end anywhere; a merge that comes in during a round might as well have come
  // after it.  Nobody starts a run by hand.

  /** A release as it was published: which merge of the history, and as which version. */
  datatype Published = Published(index: nat, version: Version)

  datatype World = World(
    seed: Version,              // the release the queue started from
    base: Sha,                  // and its commit
    history: seq<Merge>,
    covered: nat,               // how many merges the last release covers
    version: Version,           // of the last release
    tags: map<Version, Sha>,
    running: map<Version, nat>, // the release runs that are under way, and the merge each works on
    attempts: map<Version, nat>, // how often the run of a tag was started
    ended: map<Version, Ending>, // and how its last attempt ended without a publication
    failed: seq<Tag>,
    released: seq<Published>
  )

  /** A run fails, fails and leaves a draft release behind, or counts as a success although there is no release. */
  datatype Ending = Broken | LeftDraft | NoResult

  function CurrentMain(w: World): Sha {
    if w.history == [] then w.base else w.history[|w.history| - 1].commit
  }

  /** The merges since the last release. */
  function Queue(w: World): seq<Merge>
    requires w.covered <= |w.history|
  {
    w.history[w.covered..]
  }

  predicate Reserved(w: World, t: Tag) {
    t.version in w.tags && w.tags[t.version] == t.commit && Above(t.version, w.version)
  }

  /** The tags above the published version, in some order. */
  ghost predicate Reservations(w: World, tags: seq<Tag>) {
    Distinct(tags) && forall t :: t in tags <==> Reserved(w, t)
  }

  /** The failed releases above the published version. */
  function Active(failed: seq<Tag>, version: Version): seq<Tag> {
    if failed == [] then []
    else Active(failed[..|failed| - 1], version) + IfAbove(failed[|failed| - 1], version)
  }

  function IfAbove(t: Tag, version: Version): seq<Tag> {
    if Above(t.version, version) then [t] else []
  }

  function DecideIn(w: World, reservations: seq<Tag>): Outcome<Decision>
    requires w.covered <= |w.history|
  {
    Decide(CurrentMain(w), Queue(w), w.version, reservations, Active(w.failed, w.version))
  }

  ghost predicate Releases(w: World, d: Decision) {
    && w.covered <= |w.history| && d.Release?
    && exists reservations :: Reservations(w, reservations) && DecideIn(w, reservations) == Decided(d)
  }

  datatype Event =
    | Merged(m: Merge)
    | Reserve(d: Decision)
    | Start(d: Decision)
    | Publish(version: Version)
    | Stop(version: Version, ending: Ending)
    | Fail(tag: Tag)

  /** The runs that a round finds for a tag. */
  function RunsOf(w: World, v: Version): seq<HandoffRun> {
    if v !in w.attempts then []
    else [HandoffRun(if v in w.running then UnderWay else Completed(EndedAs(w, v, NoResult)), w.attempts[v])]
  }

  predicate EndedAs(w: World, v: Version, ending: Ending) {
    v !in w.running && v in w.ended && w.ended[v] == ending
  }

  predicate CanStart(w: World, v: Version) {
    ReleaseRecovery(EndedAs(w, v, LeftDraft), RunsOf(w, v)) in {Dispatch, Rerun}
  }

  /** The second attempt has failed as well. */
  predicate Exhausted(w: World, v: Version) {
    EndedAs(w, v, Broken) && v in w.attempts && w.attempts[v] == 2
  }

  /** A release is declared failed for good once, and while that matters only if its second attempt has failed. */
  ghost predicate Step(w: World, e: Event, w': World) {
    match e
    case Merged(m) => (forall i :: 0 <= i < |w.history| ==> w.history[i].commit != m.commit)
                      && w' == w.(history := w.history + [m])
    case Reserve(d) => Releases(w, d) && w' == w.(tags := w.tags[d.version := d.item.commit])
    case Start(d) =>
      && Releases(w, d) && d.version in w.tags && w.tags[d.version] == d.item.commit && CanStart(w, d.version)
      && w' == w.(running := w.running[d.version := w.covered + d.at],
                  attempts := w.attempts[d.version := AttemptsAt(w, d.version) + 1])
    case Publish(v) =>
      && v in w.running
      && w' == w.(covered := w.running[v] + 1, version := v, running := w.running - {v},
                  released := w.released + [Published(w.running[v], v)])
    case Stop(v, ending) => v in w.running && w' == w.(running := w.running - {v}, ended := w.ended[v := ending])
    case Fail(tag) =>
      && tag.version in w.tags && w.tags[tag.version] == tag.commit && tag.version !in w.running
      && (Above(tag.version, w.version) ==> Exhausted(w, tag.version))
      && tag !in w.failed && w' == w.(failed := w.failed + [tag])
  }

  function AttemptsAt(w: World, v: Version): nat {
    if v in w.attempts then w.attempts[v] else 0
  }

  ghost predicate Initial(w: World) {
    && w.covered == 0 && w.version == w.seed && w.released == [] && w.running == map[] && CommitsDiffer(w.history)
    && (forall v :: v in w.tags || v in w.attempts || v in w.ended ==> !Above(v, w.version))
    && (forall t :: t in w.failed ==> !Above(t.version, w.version))
  }

  ghost predicate CommitsDiffer(history: seq<Merge>) {
    forall i, j :: 0 <= i < j < |history| ==> history[i].commit != history[j].commit
  }

  ghost predicate Path(worlds: seq<World>, events: seq<Event>) {
    && |worlds| == |events| + 1
    && forall i :: 0 <= i < |events| ==> Step(worlds[i], events[i], worlds[i + 1])
  }

  ghost predicate Run(worlds: seq<World>, events: seq<Event>) {
    Path(worlds, events) && Initial(worlds[0])
  }

  // ----- The four phases -----------------------------------------------------------------------------------------

  /**
   `Quiet`: no failed release is active.  `Recovering`: the release of the oldest merge has failed.  `CatchingUp`:
   the tag of the catch-up is reserved at the last merge there was then.  `Lost`: the catch-up has failed as well.
   */
  datatype Phase = Quiet | Recovering | CatchingUp(upTo: nat) | Lost(upTo: nat)

  function Due(w: World): Option<Tag>
    requires w.covered <= |w.history|
  {
    NextTag(Queue(w), w.version)
  }

  function CatchUpAt(w: World, upTo: nat): Option<Tag>
    requires w.covered <= upTo <= |w.history|
  {
    CatchUpTag(w.history[w.covered..upTo], w.version)
  }

  ghost predicate ReservedAre(w: World, tags: set<Tag>) {
    forall t :: Reserved(w, t) <==> t in tags
  }

  ghost predicate RunsOnly(running: map<Version, nat>, version: Version, index: int) {
    forall v :: v in running ==> v == version && running[v] == index
  }

  ghost predicate In(w: World, p: Phase) {
    && w.covered <= |w.history| && CommitsDiffer(w.history)
    && match p
       case Quiet => InQuiet(w)
       case Recovering => InRecovering(w)
       case CatchingUp(k) => w.covered <= k <= |w.history| && InCatchingUp(w, k)
       case Lost(k) => w.covered <= k <= |w.history| && InLost(w, k)
  }

  ghost predicate InQuiet(w: World)
    requires w.covered <= |w.history|
  {
    && Active(w.failed, w.version) == []
    && match Due(w)
       case None => ReservedAre(w, {}) && w.running == map[]
       case Some(own) =>
         || (ReservedAre(w, {}) && w.running == map[])
         || (ReservedAre(w, {own}) && RunsOnly(w.running, own.version, w.covered + Pending(Queue(w)).value))
  }

  ghost predicate InRecovering(w: World)
    requires w.covered <= |w.history|
  {
    && Due(w).Some? && Active(w.failed, w.version) == [Due(w).value]
    && ReservedAre(w, {Due(w).value}) && w.running == map[]
  }

  ghost predicate InCatchingUp(w: World, k: nat)
    requires w.covered <= k <= |w.history|
  {
    && Due(w).Some? && Active(w.failed, w.version) == [Due(w).value]
    && CatchUpAt(w, k).Some?
    && ReservedAre(w, {Due(w).value, CatchUpAt(w, k).value})
    && RunsOnly(w.running, CatchUpAt(w, k).value.version, k - 1)
  }

  ghost predicate InLost(w: World, k: nat)
    requires w.covered <= k <= |w.history|
  {
    && Due(w).Some? && CatchUpAt(w, k).Some?
    && Active(w.failed, w.version) == [Due(w).value, CatchUpAt(w, k).value]
    && ReservedAre(w, {Due(w).value, CatchUpAt(w, k).value}) && w.running == map[]
  }

  /** The phase that a step leads to. */
  function After(w: World, p: Phase, e: Event): Phase {
    match e
    case Reserve(_) => if p.Recovering? then CatchingUp(|w.history|) else p
    case Publish(_) => Quiet
    case Fail(t) => if !Above(t.version, w.version) then p else if p.CatchingUp? then Lost(p.upTo) else Recovering
    case _ => p
  }

  lemma AboveIsAnOrder(u: Version, v: Version, w: Version)
    ensures Above(u, v) && Above(v, w) ==> Above(u, w)
    ensures !Above(v, v) && (Above(v, w) ==> !Above(w, v))
  {
  }

  lemma TagsRise(w: World)
    requires w.covered <= |w.history| && Due(w).Some?
    ensures Above(Due(w).value.version, w.version)
    ensures forall k :: w.covered <= k <= |w.history| && CatchUpAt(w, k).Some? ==> CatchUpRises(w, k)
  {
    forall k | w.covered <= k <= |w.history| && CatchUpAt(w, k).Some? ensures CatchUpRises(w, k) {
      CatchUpFollowsDue(w, k);
    }
  }

  /** A catch-up is one bump above the tag that failed. */
  ghost predicate CatchUpRises(w: World, k: nat)
    requires w.covered <= k <= |w.history|
  {
    Due(w).Some? && CatchUpAt(w, k).Some? && w.covered < k && w.covered + Pending(Queue(w)).value < k
    && Above(CatchUpAt(w, k).value.version, Due(w).value.version)
    && CatchUpAt(w, k).value.commit == w.history[k - 1].commit
  }

  lemma CatchUpFollowsDue(w: World, k: nat)
    requires w.covered <= k <= |w.history| && CatchUpAt(w, k).Some?
    ensures Due(w).Some? && CatchUpRises(w, k)
  {
    var some := w.history[w.covered..k];
    assert Queue(w) == some + w.history[k..];
    PendingStays(some, w.history[k..]);
    assert Queue(w)[Pending(some).value] == some[Pending(some).value];
  }

  // ----- What a round decides ------------------------------------------------------------------------------------

  /** The answer to any round, however the reservations are listed: each phase has one. */
  function Answer(w: World, p: Phase): Outcome<Decision>
    requires w.covered <= |w.history|
  {
    match p
    case Quiet => NextRelease(w)
    case Recovering => CatchUpRelease(Queue(w), w.version)
    case CatchingUp(k) => if k == |w.history| then CatchUpRelease(Queue(w), w.version) else Refused(CatchUpMismatch)
    case Lost(_) => Refused(AmbiguousTombstones)
  }

  function NextRelease(w: World): Outcome<Decision>
    requires w.covered <= |w.history|
  {
    match Pending(Queue(w))
    case None => Decided(Deploy(CurrentMain(w), w.version))
    case Some(at) =>
      var item := Queue(w)[at];
      Decided(Release(item, at, BumpFor(item).value, Next(w.version, BumpFor(item).value)))
  }

  /** The catch-up at the last of these merges, if there is a source for it. */
  function CatchUpRelease(merges: seq<Merge>, published: Version): Outcome<Decision> {
    match Pending(merges)
    case None => Refused(TombstoneWithoutSource)
    case Some(at) =>
      match CombinedBump(merges[at + 1..])
      case None => Refused(NoCatchUpSource)
      case Some(bump) =>
        var last := |merges| - 1;
        Decided(Release(merges[last], last, bump, Next(Next(published, BumpFor(merges[at]).value), bump)))
  }

  lemma DecisionInPhase(w: World, p: Phase, reservations: seq<Tag>)
    requires In(w, p) && Reservations(w, reservations)
    ensures DecideIn(w, reservations) == Answer(w, p)
  {
    match p
    case Quiet => AtMostOne(reservations, Due(w));
    case Recovering => RecoveringAnswer(w, reservations);
    case CatchingUp(k) => CatchingUpAnswer(w, k, reservations);
    case Lost(_) =>
  }

  lemma {:induction false} OthersOfOne(tags: seq<Tag>, tag: Tag)
    requires forall t :: t in tags ==> t == tag
    ensures Others(tags, tag) == []
  {
    if tags != [] {
      assert tags[0] in tags;
      forall t | t in tags[1..] ensures t == tag {
        assert t in tags;
      }
      OthersOfOne(tags[1..], tag);
    }
  }

  lemma OthersOfTwo(tags: seq<Tag>, tag: Tag, other: Tag)
    requires Distinct(tags) && other in tags && other != tag && forall t :: t in tags ==> t == tag || t == other
    ensures Others(tags, tag) == [other]
  {
    OthersAre(tags, tag);
    OthersDistinct(tags, tag);
    AtMostOne(Others(tags, tag), Some(other));
  }

  /** The answer when the failed release is the oldest merge's, from its tag and what else is reserved. */
  lemma CatchUpAnswer(currentMain: Sha, merges: seq<Merge>, published: Version, reservations: seq<Tag>, own: Tag)
    requires NextTag(merges, published) == Some(own) && own in reservations
    requires merges[|merges| - 1].commit == currentMain
    ensures var active, catchUp := Others(reservations, own), CatchUpTag(merges, published);
      Decide(currentMain, merges, published, reservations, [own]) ==
        if catchUp.None? || active == [] || active == [catchUp.value] then CatchUpRelease(merges, published)
        else Refused(if |active| > 1 then AmbiguousCatchUp else CatchUpMismatch)
  {
  }

  lemma RecoveringAnswer(w: World, reservations: seq<Tag>)
    requires In(w, Recovering) && Reservations(w, reservations)
    ensures DecideIn(w, reservations) == CatchUpRelease(Queue(w), w.version)
  {
    hide Pending, CombinedBump;
    assert Reserved(w, Due(w).value);
    OthersOfOne(reservations, Due(w).value);
    CatchUpAnswer(CurrentMain(w), Queue(w), w.version, reservations, Due(w).value);
  }

  lemma LastOfQueue(w: World)
    requires w.covered <= |w.history| && Due(w).Some?
    ensures w.covered < |w.history| && Queue(w)[|Queue(w)| - 1].commit == CurrentMain(w)
  {
  }

  lemma CatchingUpAnswer(w: World, k: nat, reservations: seq<Tag>)
    requires In(w, CatchingUp(k)) && Reservations(w, reservations)
    ensures DecideIn(w, reservations) == Answer(w, CatchingUp(k))
  {
    hide NextTag, CatchUpTag, Decide, CatchUpRelease;
    var own, catchUp := Due(w).value, CatchUpAt(w, k).value;
    ReservedInCatchUp(w, k);
    OthersOfTwo(reservations, own, catchUp);
    LastOfQueue(w);
    CatchUpAnswer(CurrentMain(w), Queue(w), w.version, reservations, own);
    CurrentCatchUp(w, k);
  }

  lemma ReservedInCatchUp(w: World, k: nat)
    requires In(w, CatchingUp(k))
    ensures Reserved(w, Due(w).value) && Reserved(w, CatchUpAt(w, k).value) && CatchUpAt(w, k) != Due(w)
  {
    CatchUpFollowsDue(w, k);
    AboveIsAnOrder(Due(w).value.version, Due(w).value.version, w.version);
  }

  /** The catch-up that is possible now is the reserved one exactly if nothing was merged since. */
  lemma CurrentCatchUp(w: World, k: nat)
    requires In(w, CatchingUp(k))
    ensures CatchUpAt(w, |w.history|).Some?
    ensures CatchUpTag(Queue(w), w.version) == CatchUpAt(w, |w.history|)
    ensures CatchUpAt(w, k) == CatchUpAt(w, |w.history|) <==> k == |w.history|
  {
    assert w.history[w.covered..] == w.history[w.covered..|w.history|];
    LaterSource(w, k);
    CatchUpFollowsDue(w, k);
    CatchUpFollowsDue(w, |w.history|);
  }

  /** A catch-up that was possible at an earlier merge has its source still. */
  lemma LaterSource(w: World, k: nat)
    requires w.covered <= k <= |w.history| && CatchUpAt(w, k).Some?
    ensures Due(w).Some? && CombinedBump(Queue(w)[Pending(Queue(w)).value + 1..]).Some?
  {
    CatchUpFollowsDue(w, k);
    PendingInPart(w, k);
    var at, some := Pending(Queue(w)).value, w.history[w.covered..k];
    assert Queue(w)[at + 1..] == some[at + 1..] + w.history[k..];
    SourceStays(some[at + 1..], w.history[k..]);
  }

  lemma SourceStays(merges: seq<Merge>, later: seq<Merge>)
    requires CombinedBump(merges).Some?
    ensures CombinedBump(merges + later).Some?
  {
    BumpsConcat(merges, later);
  }

  lemma {:induction false} BumpsConcat(a: seq<Merge>, b: seq<Merge>)
    ensures Bumps(a + b) == Bumps(a) + Bumps(b)
  {
    if a == [] {
      assert a + b == b;
    } else {
      assert (a + b)[1..] == a[1..] + b && (a + b)[0] == a[0];
      BumpsConcat(a[1..], b);
      assert BumpOf(a[0]) + (Bumps(a[1..]) + Bumps(b)) == BumpOf(a[0]) + Bumps(a[1..]) + Bumps(b);
    }
  }

  lemma PendingInPart(w: World, k: nat)
    requires w.covered <= k <= |w.history| && CatchUpAt(w, k).Some?
    ensures Pending(w.history[w.covered..k]) == Pending(Queue(w))
  {
    assert Queue(w) == w.history[w.covered..k] + w.history[k..];
    PendingStays(w.history[w.covered..k], w.history[k..]);
  }

  lemma AnswerOfRound(w: World, p: Phase, d: Decision)
    requires In(w, p) && Releases(w, d)
    ensures Answer(w, p) == Decided(d) && d.Release?
  {
    var reservations :| Reservations(w, reservations) && DecideIn(w, reservations) == Decided(d);
    DecisionInPhase(w, p, reservations);
  }

  // ----- Every step leads from phase to phase ----------------------------------------------------------------------

  lemma {:induction false} ActiveAre(failed: seq<Tag>, version: Version)
    ensures forall t :: t in Active(failed, version) <==> t in failed && Above(t.version, version)
  {
    if failed != [] {
      ActiveAre(failed[..|failed| - 1], version);
      assert failed == failed[..|failed| - 1] + [failed[|failed| - 1]];
    }
  }

  lemma {:induction false} NoneAbove(failed: seq<Tag>, version: Version)
    requires forall t :: t in failed ==> !Above(t.version, version)
    ensures Active(failed, version) == []
  {
    if failed != [] {
      NoneAbove(failed[..|failed| - 1], version);
    }
  }

  /** A release above all that have failed leaves no active failure. */
  lemma NoneActive(failed: seq<Tag>, version: Version, later: Version)
    requires Above(later, version) && forall t :: t in Active(failed, version) ==> !Above(t.version, later)
    ensures Active(failed, later) == []
  {
    ActiveAre(failed, version);
    forall t | t in failed ensures !Above(t.version, later) {
      AboveIsAnOrder(t.version, later, version);
    }
    NoneAbove(failed, later);
  }

  lemma MergedKeepsPhase(w: World, p: Phase, m: Merge, w': World)
    requires In(w, p) && Step(w, Merged(m), w')
    ensures In(w', p)
  {
    hide NextTag, CatchUpTag;
    SameTags(w, w');
    if Due(w).Some? {
      MergedKeepsDue(w, m);
    }
    if p.CatchingUp? || p.Lost? {
      MergedKeepsRecovery(w, p, m, w');
    }
  }

  lemma MergedKeepsRecovery(w: World, p: Phase, m: Merge, w': World)
    requires In(w, p) && Step(w, Merged(m), w') && (p.CatchingUp? || p.Lost?)
    ensures In(w', p)
  {
    hide NextTag, CatchUpTag;
    SameTags(w, w');
    MergedKeepsDue(w, m);
    MergedKeepsCatchUp(w, m, p.upTo);
  }

  lemma MergedKeepsDue(w: World, m: Merge)
    requires w.covered <= |w.history| && Due(w).Some?
    ensures var w' := w.(history := w.history + [m]); Due(w') == Due(w) && Pending(Queue(w')) == Pending(Queue(w))
  {
    assert Queue(w.(history := w.history + [m])) == Queue(w) + [m];
    PendingStays(Queue(w), [m]);
  }

  lemma MergedKeepsCatchUp(w: World, m: Merge, k: nat)
    requires w.covered <= k <= |w.history|
    ensures CatchUpAt(w.(history := w.history + [m]), k) == CatchUpAt(w, k)
  {
    assert (w.history + [m])[w.covered..k] == w.history[w.covered..k];
  }

  lemma SameTags(w: World, w': World)
    requires w'.tags == w.tags && w'.version == w.version
    ensures forall tags :: ReservedAre(w, tags) ==> ReservedAre(w', tags)
  {
    assert forall t :: Reserved(w', t) == Reserved(w, t);
  }

  lemma TagAdded(w: World, w': World, tag: Tag, tags: set<Tag>)
    requires w'.tags == w.tags[tag.version := tag.commit] && w'.version == w.version && Above(tag.version, w.version)
    requires ReservedAre(w, tags) && forall t :: t in tags && t.version == tag.version ==> t == tag
    ensures ReservedAre(w', tags + {tag})
  {
    forall t ensures Reserved(w', t) <==> t in tags + {tag} {
      if t.version == tag.version {
        assert Reserved(w, t) ==> t == tag;
      } else {
        assert Reserved(w', t) == Reserved(w, t);
      }
    }
  }

  lemma ReserveKeepsPhase(w: World, p: Phase, d: Decision, w': World)
    requires In(w, p) && Step(w, Reserve(d), w')
    ensures In(w', After(w, p, Reserve(d)))
  {
    AnswerOfRound(w, p, d);
    match p
    case Quiet => ReserveInQuiet(w, d, w');
    case Recovering => ReserveCatchUp(w, d, w');
    case CatchingUp(k) =>
      CatchUpNow(w);
      ReservedInCatchUp(w, k);
      assert w'.tags == w.tags;
    case Lost(_) =>
  }

  lemma ReserveInQuiet(w: World, d: Decision, w': World)
    requires In(w, Quiet) && NextRelease(w) == Decided(d) && d.Release?
    requires w' == w.(tags := w.tags[d.version := d.item.commit])
    ensures In(w', Quiet)
  {
    var tag := Tag(d.version, d.item.commit);
    TagsRise(w);
    var tags := if ReservedAre(w, {}) then {} else {tag};
    TagAdded(w, w', tag, tags);
    assert tags + {tag} == {tag};
  }

  lemma ReserveCatchUp(w: World, d: Decision, w': World)
    requires In(w, Recovering) && CatchUpRelease(Queue(w), w.version) == Decided(d)
    requires w' == w.(tags := w.tags[d.version := d.item.commit])
    ensures In(w', CatchingUp(|w.history|))
  {
    var tag, own := Tag(d.version, d.item.commit), Due(w).value;
    CatchUpNow(w);
    AboveIsAnOrder(tag.version, own.version, w.version);
    AboveIsAnOrder(own.version, own.version, w.version);
    TagAdded(w, w', tag, {own});
  }

  /** A catch-up that is decided on is the one at the current main. */
  lemma CatchUpNow(w: World)
    requires w.covered <= |w.history| && CatchUpRelease(Queue(w), w.version).Decided?
    ensures var d := CatchUpRelease(Queue(w), w.version).value;
      && CatchUpAt(w, |w.history|) == Some(Tag(d.version, d.item.commit)) && w.covered + d.at == |w.history| - 1
      && CatchUpRises(w, |w.history|) && Above(Due(w).value.version, w.version)
  {
    hide CombinedBump, Pending;
    assert w.history[w.covered..] == w.history[w.covered..|w.history|];
    CatchUpFollowsDue(w, |w.history|);
  }

  lemma StartKeepsPhase(w: World, p: Phase, d: Decision, w': World)
    requires In(w, p) && Step(w, Start(d), w')
    ensures In(w', p)
  {
    hide CatchUpTag, CatchUpRelease, Pending, CombinedBump, CanStart, Releases, Active;
    AnswerOfRound(w, p, d);
    SameTags(w, w');
    match p
    case Quiet =>
      TagsRise(w);
      assert Reserved(w, Tag(d.version, d.item.commit));
    case Recovering =>
      CatchUpIsNotReserved(w, d);
    case CatchingUp(k) =>
      CatchUpNow(w);
    case Lost(_) =>
  }

  lemma CatchUpIsNotReserved(w: World, d: Decision)
    requires In(w, Recovering) && CatchUpRelease(Queue(w), w.version) == Decided(d)
    ensures !(d.version in w.tags && w.tags[d.version] == d.item.commit)
  {
    var tag, own := Tag(d.version, d.item.commit), Due(w).value;
    CatchUpNow(w);
    AboveIsAnOrder(tag.version, own.version, w.version);
    AboveIsAnOrder(tag.version, tag.version, w.version);
    assert tag.version != own.version;
    assert Reserved(w, tag) <==> tag in {own};
  }

  lemma DueIs(w: World)
    requires w.covered <= |w.history| && Due(w).Some?
    ensures Pending(Queue(w)).Some?
    ensures Due(w).value.commit == w.history[w.covered + Pending(Queue(w)).value].commit
  {
  }

  /** What a release run is working on: the tag that is due, or the reserved catch-up. */
  lemma RunningIs(w: World, p: Phase, v: Version)
    requires In(w, p) && v in w.running
    ensures w.covered <= w.running[v] < |w.history|
    ensures v in w.tags && w.tags[v] == w.history[w.running[v]].commit && Above(v, w.version)
    ensures p.Quiet? || p.CatchingUp?
    ensures Due(w).Some?
    ensures p.Quiet? ==> v == Due(w).value.version && w.running[v] == w.covered + Pending(Queue(w)).value
    ensures p.CatchingUp? ==> CatchUpRises(w, p.upTo) && v == CatchUpAt(w, p.upTo).value.version
                              && w.running[v] == p.upTo - 1
  {
    hide NextTag, CatchUpTag, Pending, CombinedBump;
    match p
    case Quiet =>
      TagsRise(w);
      DueIs(w);
      assert Reserved(w, Due(w).value);
    case CatchingUp(k) =>
      ReservedInCatchUp(w, k);
      CatchUpFollowsDue(w, k);
    case _ =>
  }

  lemma PublishKeepsPhase(w: World, p: Phase, v: Version, w': World)
    requires In(w, p) && Step(w, Publish(v), w')
    ensures In(w', Quiet) && w'.running == map[] && ReservedAre(w', {})
  {
    hide NextTag, CatchUpTag, Pending, CombinedBump, ReservedAre, Active;
    RunningIs(w, p, v);
    NoneReservedAbove(w, p, v, w');
    NoneActiveAbove(w, p, v);
  }

  lemma NoneReservedAbove(w: World, p: Phase, v: Version, w': World)
    requires In(w, p) && Step(w, Publish(v), w')
    ensures ReservedAre(w', {})
  {
    hide NextTag, CatchUpTag, Pending, CombinedBump, Active;
    RunningIs(w, p, v);
    forall t ensures !Reserved(w', t) {
      AboveIsAnOrder(t.version, v, w.version);
      AboveIsAnOrder(t.version, v, v);
      assert Above(t.version, v) ==> (Reserved(w', t) <==> Reserved(w, t));
    }
  }

  lemma NoneActiveAbove(w: World, p: Phase, v: Version)
    requires In(w, p) && v in w.running
    ensures Active(w.failed, v) == []
  {
    hide NextTag, CatchUpTag, Pending, CombinedBump, ReservedAre;
    RunningIs(w, p, v);
    if p.CatchingUp? {
      AboveIsAnOrder(v, Due(w).value.version, w.version);
      AboveIsAnOrder(Due(w).value.version, v, Due(w).value.version);
    }
    NoneActive(w.failed, w.version, v);
  }

  /** Publishing the catch-up covers every merge up to its own and leaves no active failure: there is no second one. */
  lemma CatchUpHappensOnce(w: World, k: nat, v: Version, w': World)
    requires In(w, CatchingUp(k)) && Step(w, Publish(v), w')
    ensures CatchUpAt(w, k) == Some(Tag(v, w.history[k - 1].commit)) && Above(v, Due(w).value.version)
    ensures w'.covered == k && Active(w'.failed, w'.version) == [] && ReservedAre(w', {})
  {
    RunningIs(w, CatchingUp(k), v);
    PublishKeepsPhase(w, CatchingUp(k), v, w');
  }

  lemma StopKeepsPhase(w: World, p: Phase, v: Version, ending: Ending, w': World)
    requires In(w, p) && Step(w, Stop(v, ending), w')
    ensures In(w', p)
  {
    SameTags(w, w');
  }

  /** Only a release that is due, or a reserved catch-up, can fail while it matters. */
  lemma FailureIs(w: World, p: Phase, tag: Tag, w': World)
    requires In(w, p) && Step(w, Fail(tag), w') && Above(tag.version, w.version)
    ensures w.running == map[] && Due(w).Some?
    ensures (p.Quiet? && tag == Due(w).value && ReservedAre(w, {tag}))
        || (p.CatchingUp? && CatchUpAt(w, p.upTo) == Some(tag))
  {
    hide NextTag, CatchUpTag, Pending;
    ActiveAre(w.failed, w.version);
    assert Reserved(w, tag);
    match p
    case Quiet =>
      DueIs(w);
      NotRunning(w.running, tag.version, w.covered + Pending(Queue(w)).value);
    case Recovering =>
    case CatchingUp(k) => NotRunning(w.running, tag.version, k - 1);
    case Lost(_) =>
  }

  lemma NotRunning(running: map<Version, nat>, version: Version, index: int)
    requires RunsOnly(running, version, index) && version !in running
    ensures running == map[]
  {
    assert forall v :: v !in running;
  }

  lemma FailKeepsPhase(w: World, p: Phase, tag: Tag, w': World)
    requires In(w, p) && Step(w, Fail(tag), w')
    ensures In(w', After(w, p, Fail(tag)))
  {
    hide Due, CatchUpAt, Pending, ReservedAre, RunsOnly, NextTag, CatchUpTag, CombinedBump, BumpFor, Above, Queue;
    assert w'.failed[..|w.failed|] == w.failed;
    FailChangesNothingElse(w, tag);
    if Above(tag.version, w.version) {
      FailureIs(w, p, tag, w');
    }
  }

  lemma FailChangesNothingElse(w: World, tag: Tag)
    requires w.covered <= |w.history|
    ensures var w' := w.(failed := w.failed + [tag]);
      && Due(w') == Due(w) && Queue(w') == Queue(w)
      && (forall k :: w.covered <= k <= |w.history| ==> CatchUpAt(w', k) == CatchUpAt(w, k))
      && (forall tags :: ReservedAre(w, tags) ==> ReservedAre(w', tags))
  {
    SameTags(w, w.(failed := w.failed + [tag]));
  }

  /** Whatever happens, the queue is in one of the four phases, and goes from one to another in these ways only. */
  lemma StepKeepsPhase(w: World, p: Phase, e: Event, w': World)
    requires In(w, p) && Step(w, e, w')
    ensures In(w', After(w, p, e))
  {
    match e
    case Merged(m) => MergedKeepsPhase(w, p, m, w');
    case Reserve(d) => ReserveKeepsPhase(w, p, d, w');
    case Start(d) => StartKeepsPhase(w, p, d, w');
    case Publish(v) => PublishKeepsPhase(w, p, v, w');
    case Stop(v, ending) => StopKeepsPhase(w, p, v, ending, w');
    case Fail(t) => FailKeepsPhase(w, p, t, w');
  }

  lemma InitiallyQuiet(w: World)
    requires Initial(w)
    ensures In(w, Quiet)
  {
    NoneAbove(w.failed, w.version);
    assert ReservedAre(w, {});
  }

  lemma {:induction false} RunInPhase(worlds: seq<World>, events: seq<Event>) returns (p: Phase)
    requires Run(worlds, events)
    ensures In(worlds[|events|], p)
    decreases |events|
  {
    if events == [] {
      InitiallyQuiet(worlds[0]);
      p := Quiet;
    } else {
      var n := |events| - 1;
      p := RunInPhase(worlds[..n + 1], events[..n]);
      StepKeepsPhase(worlds[n], p, events[n], worlds[n + 1]);
      p := After(worlds[n], p, events[n]);
    }
  }

  // ----- Tags and releases over whole runs ---------------------------------------------------------------------------

  /** What a release decision says about the tags: its version is new, or reserved for the same commit. */
  lemma DecisionRespectsTags(w: World, d: Decision)
    requires Releases(w, d)
    ensures Above(d.version, w.version) && d.at < |w.history| - w.covered && d.item == w.history[w.covered + d.at]
    ensures d.version in w.tags ==> w.tags[d.version] == d.item.commit
  {
    var reservations :| Reservations(w, reservations) && DecideIn(w, reservations) == Decided(d);
    var failed := Active(w.failed, w.version);
    if |failed| == 1 {
      assert failed == [failed[0]];
      TombstoneLeadsToCatchUp(CurrentMain(w), Queue(w), w.version, reservations, failed[0]);
    }
    if d.version in w.tags {
      assert Reserved(w, Tag(d.version, w.tags[d.version]));
      ReservedForDecision(CurrentMain(w), Queue(w), w.version, reservations, failed, Tag(d.version, w.tags[d.version]));
    }
  }

  lemma ReservedForDecision(currentMain: Sha, merges: seq<Merge>, published: Version, reservations: seq<Tag>,
                            tombstones: seq<Tag>, t: Tag)
    requires var d := Decide(currentMain, merges, published, reservations, tombstones);
             d.Decided? && d.value.Release? && t in reservations && t.version == d.value.version
    ensures t.commit == Decide(currentMain, merges, published, reservations, tombstones).value.item.commit
  {
    if |tombstones| == 1 {
      assert tombstones == [tombstones[0]];
      TombstoneLeadsToCatchUp(currentMain, merges, published, reservations, tombstones[0]);
    }
  }

  /** In no step does a tag that exists go away or move to another commit. */
  lemma TagsNeverMove(w: World, e: Event, w': World, v: Version)
    requires Step(w, e, w') && v in w.tags
    ensures v in w'.tags && w'.tags[v] == w.tags[v]
  {
    if e.Reserve? {
      DecisionRespectsTags(w, e.d);
    }
  }

  lemma TagStays(worlds: seq<World>, events: seq<Event>, i: nat, v: Version)
    requires Path(worlds, events) && i < |events| && v in worlds[i].tags
    ensures v in worlds[i + 1].tags && worlds[i + 1].tags[v] == worlds[i].tags[v]
  {
    TagsNeverMove(worlds[i], events[i], worlds[i + 1], v);
  }

  /** A tag stays where it is for the rest of the run. */
  lemma {:induction false} TagsStay(worlds: seq<World>, events: seq<Event>, i: nat, j: nat, v: Version)
    requires Path(worlds, events) && i <= j < |worlds| && v in worlds[i].tags
    ensures v in worlds[j].tags && worlds[j].tags[v] == worlds[i].tags[v]
    decreases j - i
  {
    hide Step;
    if i < j {
      TagsStay(worlds, events, i, j - 1, v);
      TagStays(worlds, events, j - 1, v);
    }
  }

  /** Each release is one of the history's merges, tagged with its commit. */
  ghost predicate Recorded(w: World, r: Published) {
    && r.index < w.covered && r.index < |w.history| && r.version in w.tags
        && w.tags[r.version] == w.history[r.index].commit
    && !Above(r.version, w.version)
  }

  ghost predicate Sound(w: World) {
    && w.covered <= |w.history|
    && (forall r :: r in w.released ==> Recorded(w, r))
    && (forall i, j :: 0 <= i < j < |w.released| ==>
          w.released[i].index < w.released[j].index && Above(w.released[j].version, w.released[i].version))
  }

  lemma StepKeepsSound(w: World, p: Phase, e: Event, w': World)
    requires In(w, p) && Sound(w) && Step(w, e, w')
    ensures Sound(w')
  {
    if e.Publish? {
      RunningIs(w, p, e.version);
    }
    forall r | r in w.released ensures Recorded(w', r) {
      TagsNeverMove(w, e, w', r.version);
      if e.Publish? {
        AboveIsAnOrder(r.version, e.version, w.version);
      }
    }
    if e.Publish? {
      forall i | 0 <= i < |w.released|
        ensures w.released[i].index < w.covered && Above(e.version, w.released[i].version)
      {
        assert w.released[i] in w.released;
      }
    }
  }

  /**
   Over a whole run: releases in the order of the history, under strictly rising versions, each tag where it
   was put.
   */
  lemma {:induction false} ReleasesRise(worlds: seq<World>, events: seq<Event>)
    requires Run(worlds, events)
    ensures Sound(worlds[|events|])
    decreases |events|
  {
    if events != [] {
      var n := |events| - 1;
      ReleasesRise(worlds[..n + 1], events[..n]);
      var p := RunInPhase(worlds[..n + 1], events[..n]);
      StepKeepsSound(worlds[n], p, events[n], worlds[n + 1]);
    }
  }

  // ----- Oldest first ------------------------------------------------------------------------------------------------

  function CoveredAfter(released: seq<Published>, j: nat): nat
    requires j <= |released|
  {
    if j == 0 then 0 else released[j - 1].index + 1
  }

  function VersionAfter(seed: Version, released: seq<Published>, j: nat): Version
    requires j <= |released|
  {
    if j == 0 then seed else released[j - 1].version
  }

  /**
   Why `r` is the release after `before`, which covers the first `from` merges: it is the oldest merge that asks for
   one, or the release of that has failed and `r` is the catch-up with the largest bump asked for since.
   */
  ghost predicate Justified(history: seq<Merge>, from: nat, before: Version, r: Published, failed: seq<Tag>) {
    && from <= r.index < |history|
    && var merges := history[from..r.index + 1];
       && NextTag(merges, before).Some?
       && if Pending(merges) == Some(|merges| - 1) then r.version == NextTag(merges, before).value.version
          else IsCatchUp(merges, before, r.version, failed)
  }

  ghost predicate IsCatchUp(merges: seq<Merge>, before: Version, version: Version, failed: seq<Tag>) {
    && NextTag(merges, before).Some? && NextTag(merges, before).value in failed
    && CatchUpTag(merges, before).Some? && version == CatchUpTag(merges, before).value.version
  }

  ghost predicate JustifiedAt(w: World, j: nat)
    requires j < |w.released|
  {
    Justified(w.history, CoveredAfter(w.released, j), VersionAfter(w.seed, w.released, j), w.released[j], w.failed)
  }

  /** Each release follows from the one before, the merges in between, and the failures. */
  ghost predicate Explained(w: World) {
    && w.covered == CoveredAfter(w.released, |w.released|)
        && w.version == VersionAfter(w.seed, w.released, |w.released|)
    && forall j :: 0 <= j < |w.released| ==> JustifiedAt(w, j)
  }

  lemma JustifiedStays(history: seq<Merge>, from: nat, before: Version, r: Published, failed: seq<Tag>,
                       later: seq<Merge>, more: seq<Tag>)
    requires Justified(history, from, before, r, failed)
    ensures Justified(history + later, from, before, r, failed + more)
  {
    assert (history + later)[from..r.index + 1] == history[from..r.index + 1];
  }

  lemma DueIsJustified(w: World, r: Published)
    requires w.covered <= |w.history| && Due(w).Some? && r.version == Due(w).value.version
    requires r.index == w.covered + Pending(Queue(w)).value
    ensures Justified(w.history, w.covered, w.version, r, w.failed)
  {
    DueInPart(w, r.index + 1);
  }

  lemma CatchUpIsJustified(w: World, r: Published)
    requires w.covered < r.index + 1 <= |w.history| && CatchUpAt(w, r.index + 1).Some?
    requires r.version == CatchUpAt(w, r.index + 1).value.version
    requires Due(w).Some? && Due(w).value in w.failed
    ensures Justified(w.history, w.covered, w.version, r, w.failed)
  {
    CatchUpFollowsDue(w, r.index + 1);
    DueInPart(w, r.index + 1);
  }

  /** The tag that is due at its merge, or the catch-up of its failure. */
  ghost predicate Publishable(w: World, r: Published) {
    && w.covered <= r.index < |w.history| && Due(w).Some?
    && (|| (r.version == Due(w).value.version && r.index == w.covered + Pending(Queue(w)).value)
        || (Due(w).value in w.failed && CatchUpAt(w, r.index + 1).Some?
            && r.version == CatchUpAt(w, r.index + 1).value.version))
  }

  lemma RunningIsPublishable(w: World, p: Phase, v: Version)
    requires In(w, p) && v in w.running
    ensures Publishable(w, Published(w.running[v], v))
  {
    hide NextTag, CatchUpTag, Pending, CombinedBump, ReservedAre;
    RunningIs(w, p, v);
    if !p.Quiet? {
      DueHasFailed(w, p);
    }
  }

  lemma PublishableIsJustified(w: World, r: Published)
    requires Publishable(w, r)
    ensures Justified(w.history, w.covered, w.version, r, w.failed)
  {
    if r.version == Due(w).value.version && r.index == w.covered + Pending(Queue(w)).value {
      DueIsJustified(w, r);
    } else {
      CatchUpIsJustified(w, r);
    }
  }

  lemma DueHasFailed(w: World, p: Phase)
    requires In(w, p) && !p.Quiet?
    ensures Due(w).value in w.failed
  {
    ActiveAre(w.failed, w.version);
    assert Active(w.failed, w.version)[0] == Due(w).value;
  }

  /** The oldest merge is the same in any part of the queue that has one. */
  lemma DueInPart(w: World, k: nat)
    requires w.covered <= k <= |w.history| && Due(w).Some? && w.covered + Pending(Queue(w)).value < k
    ensures NextTag(w.history[w.covered..k], w.version) == Due(w)
    ensures Pending(w.history[w.covered..k]) == Pending(Queue(w))
  {
    var some, at := w.history[w.covered..k], Pending(Queue(w)).value;
    assert some[at] == Queue(w)[at];
    assert Queue(w) == some + w.history[k..];
    PendingStays(some, w.history[k..]);
  }

  lemma StepKeepsExplained(w: World, p: Phase, e: Event, w': World)
    requires In(w, p) && Explained(w) && Step(w, e, w')
    ensures Explained(w')
  {
    hide Justified, NextTag, CatchUpTag;
    if e.Publish? {
      RunningIsPublishable(w, p, e.version);
      PublishableIsJustified(w, Published(w.running[e.version], e.version));
    }
    forall j | 0 <= j < |w'.released| ensures JustifiedAt(w', j) {
      if j < |w.released| {
        StepKeepsJustified(w, e, w', j);
      }
    }
  }

  lemma StepKeepsJustified(w: World, e: Event, w': World, j: nat)
    requires j < |w.released| && JustifiedAt(w, j) && Step(w, e, w')
    ensures JustifiedAt(w', j)
  {
    var later, more := if e.Merged? then [e.m] else [], if e.Fail? then [e.tag] else [];
    JustifiedStays(w.history, CoveredAfter(w.released, j), VersionAfter(w.seed, w.released, j), w.released[j],
                   w.failed, later, more);
    assert w'.history == w.history + later && w'.failed == w.failed + more;
  }

  lemma {:induction false} RunIsExplained(worlds: seq<World>, events: seq<Event>)
    requires Run(worlds, events)
    ensures Explained(worlds[|events|])
    decreases |events|
  {
    if events != [] {
      var n := |events| - 1;
      RunIsExplained(worlds[..n + 1], events[..n]);
      var p := RunInPhase(worlds[..n + 1], events[..n]);
      StepKeepsExplained(worlds[n], p, events[n], worlds[n + 1]);
    }
  }

  /** Release `j` is the one the merge at `i` asked for, or is a catch-up that covers it. */
  ghost predicate DealsWith(w: World, j: nat, i: nat)
    requires j < |w.released|
  {
    && CoveredAfter(w.released, j) <= i <= w.released[j].index < |w.history|
    && (w.released[j].index == i
        || IsCatchUp(w.history[CoveredAfter(w.released, j)..w.released[j].index + 1],
                     VersionAfter(w.seed, w.released, j), w.released[j].version, w.failed))
  }

  /** Which release a covered merge belongs to. */
  lemma {:induction false} CoveredBy(w: World, i: nat, n: nat) returns (j: nat)
    requires Explained(w) && n <= |w.released| && i < CoveredAfter(w.released, n)
    ensures j < n && CoveredAfter(w.released, j) <= i <= w.released[j].index
  {
    if CoveredAfter(w.released, n - 1) <= i {
      j := n - 1;
    } else {
      j := CoveredBy(w, i, n - 1);
    }
  }

  /**
   Over a whole run, whatever fails: each release is the oldest merge that asked for one or the catch-up of its
   failure, and no merge up to the last release that asked for one is passed over.
   */
  lemma OldestFirst(worlds: seq<World>, events: seq<Event>)
    requires Run(worlds, events)
    ensures var w := worlds[|events|];
      && Explained(w) && w.covered <= |w.history|
      && forall i :: 0 <= i < w.covered && Bearing(w.history[i]) ==>
          exists j :: 0 <= j < |w.released| && DealsWith(w, j, i)
  {
    var w := worlds[|events|];
    RunIsExplained(worlds, events);
    var p := RunInPhase(worlds, events);
    forall i | 0 <= i < w.covered && Bearing(w.history[i])
      ensures exists j :: 0 <= j < |w.released| && DealsWith(w, j, i)
    {
      var j := CoveredBy(w, i, |w.released|);
      NothingIsPassedOver(w, i, j);
    }
  }

  lemma NothingIsPassedOver(w: World, i: nat, j: nat)
    requires Explained(w) && j < |w.released| && CoveredAfter(w.released, j) <= i <= w.released[j].index
    requires i < |w.history| && Bearing(w.history[i])
    ensures DealsWith(w, j, i)
  {
    hide NextTag, CatchUpTag, CombinedBump;
    assert JustifiedAt(w, j);
    var from, r := CoveredAfter(w.released, j), w.released[j];
    var merges := w.history[from..r.index + 1];
    assert merges[i - from] == w.history[i];
  }

  /** A tag whose release was declared failed for good is not being released, so it is never published. */
  lemma FailedIsNotRunning(w: World, p: Phase, v: Version)
    requires In(w, p) && v in w.running
    ensures v in w.tags && Tag(v, w.tags[v]) !in w.failed
  {
    RunningIs(w, p, v);
    ActiveAre(w.failed, w.version);
    if p.CatchingUp? {
      ReservedInCatchUp(w, p.upTo);
      AboveIsAnOrder(v, v, w.version);
    }
  }

  // ----- The runs of a tag -------------------------------------------------------------------------------------------

  /** What is known of the runs of a tag that is not published: it is reserved, and was started twice at most. */
  ghost predicate TrackedAt(w: World, v: Version) {
    && (v in w.running ==> v in w.attempts)
    && (Above(v, w.version) && (v in w.attempts || v in w.ended) ==>
          v in w.tags && v in w.attempts && 1 <= w.attempts[v] <= 2 && (v in w.running || v in w.ended))
  }

  ghost predicate Tracked(w: World) {
    forall v :: TrackedAt(w, v)
  }

  /** A round starts the run of a tag that has had none, or whose first attempt has failed and left nothing behind. */
  lemma CanStartExactly(w: World, v: Version)
    requires TrackedAt(w, v) && Above(v, w.version)
    ensures CanStart(w, v) <==> v !in w.attempts || (EndedAs(w, v, Broken) && w.attempts[v] == 1)
  {
    StartsExactly(EndedAs(w, v, LeftDraft), RunsOf(w, v));
    if v in w.attempts {
      assert RunsOf(w, v)[0] in RunsOf(w, v);
    }
  }

  lemma StepKeepsTracked(w: World, p: Phase, e: Event, w': World)
    requires In(w, p) && Tracked(w) && Step(w, e, w')
    ensures Tracked(w')
  {
    hide In, Step, TrackedAt;
    forall v ensures TrackedAt(w', v) {
      assert TrackedAt(w, v);
      StepKeepsTrackedAt(w, p, e, w', v);
    }
  }

  lemma StepKeepsTrackedAt(w: World, p: Phase, e: Event, w': World, v: Version)
    requires In(w, p) && TrackedAt(w, v) && Step(w, e, w')
    ensures TrackedAt(w', v)
  {
    hide In, CanStart, Releases, DecideIn;
    match e
    case Start(d) =>
      if d.version == v {
        DecisionRespectsTags(w, d);
        CanStartExactly(w, v);
      }
    case Publish(u) =>
      RunningIs(w, p, u);
      AboveIsAnOrder(v, u, w.version);
      AboveIsAnOrder(v, v, v);
    case _ =>
  }

  lemma InitiallyTracked(w: World)
    requires Initial(w)
    ensures Tracked(w)
  {
    forall v ensures TrackedAt(w, v) {
    }
  }

  lemma {:induction false} RunIsTracked(worlds: seq<World>, events: seq<Event>)
    requires Run(worlds, events)
    ensures Tracked(worlds[|events|])
    decreases |events|
  {
    if events != [] {
      var n := |events| - 1;
      RunIsTracked(worlds[..n + 1], events[..n]);
      var p := RunInPhase(worlds[..n + 1], events[..n]);
      StepKeepsTracked(worlds[n], p, events[n], worlds[n + 1]);
    } else {
      InitiallyTracked(worlds[0]);
    }
  }

  /** A version that is not reserved has had no run. */
  lemma UnreservedIsFresh(w: World, v: Version)
    requires Tracked(w) && Above(v, w.version) && v !in w.tags
    ensures CanStart(w, v) && v !in w.attempts && v !in w.ended
  {
    assert TrackedAt(w, v);
    CanStartExactly(w, v);
  }

  // ----- Where the queue stops for good ------------------------------------------------------------------------------

  /**
   Quiet, and the run of the due tag has left a draft or no result; or the tag of the catch-up is reserved, its run is
   not under way, and no round starts it, because a merge came in or its attempts are over; or the catch-up has failed.
   */
  ghost predicate Stuck(w: World, p: Phase)
    requires In(w, p)
  {
    match p
    case Quiet =>
      Due(w).Some? && (EndedAs(w, Due(w).value.version, LeftDraft) || EndedAs(w, Due(w).value.version, NoResult))
    case Recovering => false
    case CatchingUp(k) => w.running == map[] && (k < |w.history| || !CanStart(w, CatchUpAt(w, k).value.version))
    case Lost(_) => true
  }

  /** The release of the oldest merge has failed, and no later merge asks for one. */
  predicate AwaitsSource(w: World, p: Phase)
    requires w.covered <= |w.history|
  {
    p.Recovering? && CatchUpAt(w, |w.history|).None?
  }

  /** Both attempts of the due release have failed, and it is not yet declared so. */
  predicate AwaitsFailure(w: World, p: Phase)
    requires w.covered <= |w.history|
  {
    p.Quiet? && Due(w).Some? && Exhausted(w, Due(w).value.version)
  }

  ghost predicate Waits(w: World, p: Phase)
    requires In(w, p)
  {
    Stuck(w, p) || AwaitsSource(w, p) || AwaitsFailure(w, p)
  }

  ghost predicate Deploys(w: World) {
    w.covered <= |w.history| && Reservations(w, []) && DecideIn(w, []) == Decided(Deploy(CurrentMain(w), w.version))
  }

  lemma AnswerRefusesExactly(w: World, p: Phase)
    requires In(w, p)
    ensures Answer(w, p).Refused? <==> AwaitsSource(w, p) || p.Lost? || (p.CatchingUp? && p.upTo < |w.history|)
  {
    hide ReservedAre, RunsOnly, Active, CombinedBump;
    assert Queue(w) == w.history[w.covered..|w.history|];
    if p.CatchingUp? {
      CurrentCatchUp(w, p.upTo);
    }
  }

  /** A round is refused in these worlds only, however the reservations are listed. */
  lemma RefusesExactly(w: World, p: Phase, reservations: seq<Tag>)
    requires In(w, p) && Reservations(w, reservations)
    ensures DecideIn(w, reservations).Refused? <==>
              AwaitsSource(w, p) || p.Lost? || (p.CatchingUp? && p.upTo < |w.history|)
  {
    hide InQuiet, InRecovering, InCatchingUp, InLost, CatchUpTag, Answer, DecideIn;
    DecisionInPhase(w, p, reservations);
    AnswerRefusesExactly(w, p);
  }

  /** The due tag is reserved once its run was started, and so is the catch-up. */
  lemma DueIsReserved(w: World)
    requires In(w, Quiet) && Tracked(w) && Due(w).Some? && Due(w).value.version in w.ended
    ensures Reserved(w, Due(w).value)
    ensures Due(w).value.version !in w.running ==> w.running == map[]
  {
    hide NextTag, Pending;
    var own := Due(w).value;
    TagsRise(w);
    DueIs(w);
    assert TrackedAt(w, own.version);
    assert Reserved(w, Tag(own.version, w.tags[own.version]));
    if own.version !in w.running {
      NotRunning(w.running, own.version, w.covered + Pending(Queue(w)).value);
    }
  }

  /** What the round decides on is reserved, and no run of it can be started. */
  predicate Idle(w: World, d: Decision) {
    d.Release? && d.version in w.tags && w.tags[d.version] == d.item.commit && !CanStart(w, d.version)
  }

  lemma NothingToDo(w: World, p: Phase)
    requires In(w, p) && Tracked(w) && Waits(w, p)
    ensures w.running == map[] && !Deploys(w)
    ensures forall d :: Releases(w, d) ==> Idle(w, d)
  {
    hide In, Releases, CanStart, Deploys;
    NothingRuns(w, p);
    NothingDeploys(w, p);
    forall d | Releases(w, d) ensures Idle(w, d) {
      AnswerIsIdle(w, p, d);
    }
  }

  lemma NothingRuns(w: World, p: Phase)
    requires In(w, p) && Tracked(w) && Waits(w, p)
    ensures w.running == map[]
  {
    hide NextTag, CatchUpTag, CanStart, ReservedAre;
    if p.Quiet? {
      DueIsReserved(w);
    }
  }

  lemma NothingDeploys(w: World, p: Phase)
    requires In(w, p) && Waits(w, p)
    ensures !Deploys(w)
  {
    hide ReservedAre, RunsOnly, Active, CanStart, CombinedBump;
    if Deploys(w) {
      DecisionInPhase(w, p, []);
    }
  }

  lemma AnswerIsIdle(w: World, p: Phase, d: Decision)
    requires In(w, p) && Tracked(w) && Waits(w, p) && Releases(w, d)
    ensures Idle(w, d)
  {
    hide Releases, CanStart, CatchUpTag, CatchUpRelease, Pending, CombinedBump;
    AnswerOfRound(w, p, d);
    AnswerRefusesExactly(w, p);
    if p.Quiet? {
      DueIsReserved(w);
      TagsRise(w);
      assert TrackedAt(w, d.version);
      CanStartExactly(w, d.version);
    } else {
      CatchUpNow(w);
      ReservedInCatchUp(w, p.upTo);
    }
  }

  /** A stuck queue stays stuck: merges come in, failures are recorded, and nothing else changes anything. */
  lemma StuckStays(w: World, p: Phase, e: Event, w': World)
    requires In(w, p) && Tracked(w) && Stuck(w, p) && Step(w, e, w')
    ensures In(w', After(w, p, e)) && Tracked(w') && Stuck(w', After(w, p, e))
    ensures e.Merged? || e.Fail? || w' == w
    ensures w'.covered == w.covered && w'.version == w.version && w'.released == w.released && w'.tags == w.tags
  {
    hide In, Releases, CatchUpTag, NextTag, CanStart, Exhausted;
    NothingToDo(w, p);
    StepKeepsPhase(w, p, e, w');
    StepKeepsTracked(w, p, e, w');
    match e
    case Merged(m) => MergedStaysStuck(w, p, m, w');
    case Fail(t) => FailStaysStuck(w, p, t, w');
    case Reserve(d) => assert w'.tags == w.tags;
    case _ =>
  }

  lemma MergedStaysStuck(w: World, p: Phase, m: Merge, w': World)
    requires In(w, p) && Stuck(w, p) && Step(w, Merged(m), w') && In(w', p)
    ensures Stuck(w', p)
  {
    hide InQuiet, InRecovering, InLost, NextTag, CatchUpTag, CanStart;
    match p
    case Quiet => MergedKeepsDue(w, m);
    case CatchingUp(k) => MergedKeepsCatchUp(w, m, k);
    case _ =>
  }

  lemma FailStaysStuck(w: World, p: Phase, t: Tag, w': World)
    requires In(w, p) && Stuck(w, p) && Step(w, Fail(t), w') && In(w', After(w, p, Fail(t)))
    ensures Stuck(w', After(w, p, Fail(t)))
  {
    hide InQuiet, InRecovering, InLost, NextTag, CatchUpTag, ReleaseRecovery;
    FailChangesNothingElse(w, t);
    if Above(t.version, w.version) {
      FailureIs(w, p, t, w');
    }
  }

  /** Over any run from a stuck world, nothing is reserved, started, stopped or published. */
  lemma {:induction false} StuckForever(worlds: seq<World>, events: seq<Event>, p: Phase) returns (q: Phase)
    requires Path(worlds, events) && In(worlds[0], p) && Tracked(worlds[0]) && Stuck(worlds[0], p)
    ensures In(worlds[|events|], q) && Tracked(worlds[|events|]) && Stuck(worlds[|events|], q)
    ensures !Deploys(worlds[|events|])
    ensures worlds[|events|].released == worlds[0].released && worlds[|events|].tags == worlds[0].tags
    ensures forall i :: 0 <= i < |events| ==> events[i].Merged? || events[i].Fail? || worlds[i + 1] == worlds[i]
    decreases |events|
  {
    hide In, Step, Deploys, Stuck, Tracked;
    q := p;
    if events != [] {
      var n := |events| - 1;
      q := StuckForever(worlds[..n + 1], events[..n], p);
      StuckStays(worlds[n], q, events[n], worlds[n + 1]);
      q := After(worlds[n], q, events[n]);
    }
    NothingToDo(worlds[|events|], q);
  }

  /**
   Exactly how a queue gets stuck: a merge comes in behind a reserved catch-up whose run is not under way; the run of
   the catch-up stops behind a merge or on its second attempt; or any run stops and leaves a draft or no result.
   */
  lemma GetsStuckExactly(w: World, p: Phase, e: Event, w': World)
    requires In(w, p) && Tracked(w) && !Stuck(w, p) && Step(w, e, w')
    ensures In(w', After(w, p, e)) && Tracked(w')
    ensures Stuck(w', After(w, p, e)) <==>
      match e
      case Merged(_) => p.CatchingUp? && w.running == map[]
      case Stop(v, ending) => ending != Broken || (p.CatchingUp? && (p.upTo < |w.history| || AttemptsAt(w, v) == 2))
      case _ => false
  {
    hide In, Stuck, Step, Tracked;
    StepKeepsPhase(w, p, e, w');
    StepKeepsTracked(w, p, e, w');
    match e
    case Merged(m) => MergedGetsStuck(w, p, m, w');
    case Reserve(d) => ReserveIsNotStuck(w, p, d, w');
    case Start(d) => StartIsNotStuck(w, p, d, w');
    case Publish(v) => PublishIsNotStuck(w, p, v, w');
    case Stop(v, ending) => StopGetsStuck(w, p, v, ending, w');
    case Fail(t) => FailIsNotStuck(w, p, t, w');
  }

  /** Where nothing is reserved, no run of the due tag has ended. */
  lemma FreshIsNotStuck(w: World)
    requires In(w, Quiet) && Tracked(w) && ReservedAre(w, {})
    ensures !Stuck(w, Quiet) && !AwaitsFailure(w, Quiet)
  {
    hide NextTag, Pending;
    if Due(w).Some? && Due(w).value.version in w.ended {
      DueIsReserved(w);
    }
  }

  lemma MergedGetsStuck(w: World, p: Phase, m: Merge, w': World)
    requires In(w, p) && !Stuck(w, p) && Step(w, Merged(m), w') && In(w', p) && Tracked(w')
    ensures Stuck(w', p) <==> p.CatchingUp? && w.running == map[]
  {
    hide InRecovering, InLost, NextTag, CatchUpTag, CanStart, Pending;
    match p
    case Quiet =>
      if Due(w).Some? {
        MergedKeepsDue(w, m);
      } else {
        SameTags(w, w');
        FreshIsNotStuck(w');
      }
    case CatchingUp(k) => MergedKeepsCatchUp(w, m, k);
    case _ =>
  }

  lemma ReserveIsNotStuck(w: World, p: Phase, d: Decision, w': World)
    requires In(w, p) && Tracked(w) && !Stuck(w, p) && Step(w, Reserve(d), w') && In(w', After(w, p, Reserve(d)))
    ensures !Stuck(w', After(w, p, Reserve(d)))
  {
    hide InQuiet, InLost, InCatchingUp, NextTag, CatchUpTag, CatchUpRelease, Pending, ReleaseRecovery, Releases;
    if p.Recovering? {
      AnswerOfRound(w, p, d);
      CatchUpNow(w);
      CatchUpVersionIsNew(w, d);
      UnreservedIsFresh(w, d.version);
    }
  }

  lemma CatchUpVersionIsNew(w: World, d: Decision)
    requires In(w, Recovering) && CatchUpRelease(Queue(w), w.version) == Decided(d) && d.Release?
    ensures d.version !in w.tags && Above(d.version, w.version)
  {
    hide NextTag, CatchUpTag, CatchUpRelease, Pending;
    CatchUpNow(w);
    AboveIsAnOrder(d.version, Due(w).value.version, w.version);
    AboveIsAnOrder(d.version, d.version, d.version);
    var t := Tag(d.version, if d.version in w.tags then w.tags[d.version] else d.item.commit);
    assert t != Due(w).value;
    assert Reserved(w, t) <==> t in {Due(w).value};
  }

  lemma StartIsNotStuck(w: World, p: Phase, d: Decision, w': World)
    requires In(w, p) && !Stuck(w, p) && Step(w, Start(d), w') && In(w', p)
    ensures !Stuck(w', p)
  {
    hide InQuiet, InRecovering, InCatchingUp, InLost, NextTag, CatchUpTag, CatchUpRelease, Pending, Releases, CanStart;
    AnswerOfRound(w, p, d);
    assert d.version in w'.running;
  }

  lemma PublishIsNotStuck(w: World, p: Phase, v: Version, w': World)
    requires In(w, p) && Step(w, Publish(v), w') && Tracked(w') && In(w', Quiet)
    ensures !Stuck(w', Quiet) && !AwaitsFailure(w', Quiet)
  {
    PublishKeepsPhase(w, p, v, w');
    FreshIsNotStuck(w');
  }

  lemma StopGetsStuck(w: World, p: Phase, v: Version, ending: Ending, w': World)
    requires In(w, p) && Tracked(w) && Step(w, Stop(v, ending), w') && In(w', p) && Tracked(w')
    ensures Stuck(w', p) <==> ending != Broken || (p.CatchingUp? && (p.upTo < |w.history| || AttemptsAt(w, v) == 2))
  {
    hide NextTag, CatchUpTag, Pending, CanStart, ReservedAre, Active;
    RunningIs(w, p, v);
    assert TrackedAt(w', v);
    if p.CatchingUp? {
      CanStartExactly(w', v);
      NotRunning(w'.running, v, p.upTo - 1);
    }
  }

  lemma FailIsNotStuck(w: World, p: Phase, t: Tag, w': World)
    requires In(w, p) && Tracked(w) && !Stuck(w, p) && Step(w, Fail(t), w') && In(w', After(w, p, Fail(t)))
    ensures !Stuck(w', After(w, p, Fail(t)))
  {
    hide InQuiet, InRecovering, InCatchingUp, InLost, NextTag, CatchUpTag, ReleaseRecovery;
    FailChangesNothingElse(w, t);
    if Above(t.version, w.version) {
      FailureIs(w, p, t, w');
      assert TrackedAt(w, t.version);
      CanStartExactly(w, t.version);
    }
  }

  // ----- How far it is to a deployment -------------------------------------------------------------------------------

  /** The releases that are still to come: one for each merge that waits, and one for all that a catch-up covers. */
  function Remaining(w: World, p: Phase): nat
    requires w.covered <= |w.history| && (p.CatchingUp? || p.Lost? ==> p.upTo <= |w.history|)
  {
    match p
    case Quiet => |Bumps(Queue(w))|
    case Recovering => 1
    case CatchingUp(k) => 1 + |Bumps(w.history[k..])|
    case Lost(k) => 1 + |Bumps(w.history[k..])|
  }

  lemma BumpsUpToPending(merges: seq<Merge>)
    requires Pending(merges).Some?
    ensures |Bumps(merges)| == 1 + |Bumps(merges[Pending(merges).value + 1..])|
  {
    var at := Pending(merges).value;
    var front, first, rest := merges[..at], [merges[at]], merges[at + 1..];
    assert merges == front + first + rest;
    BumpsConcat(front + first, rest);
    BumpsConcat(front, first);
    NoneBearing(front);
    assert Bumps(first) == [BumpFor(merges[at]).value];
  }

  lemma {:induction false} NoneBearing(merges: seq<Merge>)
    ensures Bumps(merges) == [] <==> Pending(merges) == None
  {
    if merges != [] && !Bearing(merges[0]) {
      NoneBearing(merges[1..]);
    }
  }

  lemma OneMoreMerge(merges: seq<Merge>, m: Merge)
    ensures |Bumps(merges + [m])| == |Bumps(merges)| + if Bearing(m) then 1 else 0
  {
    BumpsConcat(merges, [m]);
    assert [m][1..] == [];
  }

  /** Each publication brings the queue one release closer to its end, a merge takes it back by one at most. */
  lemma StepsTowardsTheEnd(w: World, p: Phase, e: Event, w': World)
    requires In(w, p) && Step(w, e, w')
    ensures In(w', After(w, p, e))
    ensures match e
      case Publish(_) => Remaining(w', After(w, p, e)) == Remaining(w, p) - 1
      case Merged(m) => Remaining(w', p) <= Remaining(w, p) + if Bearing(m) then 1 else 0
      case Fail(_) => Remaining(w', After(w, p, e)) <= Remaining(w, p)
      case _ => Remaining(w', After(w, p, e)) == Remaining(w, p)
  {
    hide InQuiet, InRecovering, InCatchingUp, InLost, Releases;
    StepKeepsPhase(w, p, e, w');
    match e
    case Publish(v) => PublishTakesOne(w, p, v, w');
    case Merged(m) => MergedAddsOne(w, p, m);
    case Fail(t) => FailAddsNone(w, p, t, w');
    case Reserve(_) => assert w.history[|w.history|..] == [];
    case _ =>
  }

  lemma PublishTakesOne(w: World, p: Phase, v: Version, w': World)
    requires In(w, p) && Step(w, Publish(v), w') && In(w', Quiet)
    ensures Remaining(w', Quiet) == Remaining(w, p) - 1
  {
    hide InQuiet, InRecovering, InCatchingUp, InLost, CatchUpAt, Bumps, Pending;
    RunningIs(w, p, v);
    if p.Quiet? {
      BumpsUpToPending(Queue(w));
      assert Queue(w') == Queue(w)[Pending(Queue(w)).value + 1..];
    }
  }

  lemma FailAddsNone(w: World, p: Phase, t: Tag, w': World)
    requires In(w, p) && Step(w, Fail(t), w') && In(w', After(w, p, Fail(t)))
    ensures Remaining(w', After(w, p, Fail(t))) <= Remaining(w, p)
  {
    hide InQuiet, InRecovering, InCatchingUp, InLost, NextTag, Pending, Bumps;
    if Above(t.version, w.version) {
      FailureIs(w, p, t, w');
      DueIs(w);
      BumpsUpToPending(Queue(w));
    }
  }

  lemma MergedAddsOne(w: World, p: Phase, m: Merge)
    requires In(w, p)
    ensures Remaining(w.(history := w.history + [m]), p) <= Remaining(w, p) + if Bearing(m) then 1 else 0
  {
    hide InQuiet, InRecovering, InCatchingUp, InLost, Bumps;
    var from := match p case Quiet => w.covered case Recovering => 0 case CatchingUp(k) => k case Lost(k) => k;
    assert (w.history + [m])[from..] == w.history[from..] + [m];
    OneMoreMerge(w.history[from..], m);
  }

  /** A step that the queue takes by itself. */
  ghost predicate OwnStep(w: World, w': World) {
    exists e: Event :: (e.Reserve? || e.Start? || e.Publish?) && Step(w, e, w')
  }

  ghost predicate OwnPath(worlds: seq<World>) {
    |worlds| > 0 && forall i :: 0 <= i < |worlds| - 1 ==> OwnStep(worlds[i], worlds[i + 1])
  }

  lemma OwnStepIs(w: World, e: Event, w': World)
    requires (e.Reserve? || e.Start? || e.Publish?) && Step(w, e, w')
    ensures OwnStep(w, w')
  {
  }

  lemma Joined(a: seq<World>, b: seq<World>)
    requires OwnPath(a) && OwnPath(b) && a[|a| - 1] == b[0]
    ensures OwnPath(a + b[1..]) && (a + b[1..])[|a + b[1..]| - 1] == b[|b| - 1]
  {
    hide OwnStep;
    var c := a + b[1..];
    forall i | 0 <= i < |c| - 1 ensures OwnStep(c[i], c[i + 1]) {
      if i < |a| - 1 {
        assert OwnStep(a[i], a[i + 1]);
      } else {
        assert OwnStep(b[i - |a| + 1], b[i - |a| + 2]);
      }
    }
  }

  /** The decision that a round can act on. */
  ghost predicate CanRelease(w: World, p: Phase, d: Decision) {
    In(w, p) && d.Release? && Answer(w, p) == Decided(d)
  }

  lemma SomeReservations(w: World, p: Phase) returns (tags: seq<Tag>)
    requires In(w, p)
    ensures Reservations(w, tags)
  {
    hide NextTag, CatchUpTag, Pending;
    match p
    case Quiet => tags := if ReservedAre(w, {}) then [] else [Due(w).value];
    case Recovering => tags := [Due(w).value];
    case CatchingUp(k) =>
      ReservedInCatchUp(w, k);
      tags := [Due(w).value, CatchUpAt(w, k).value];
    case Lost(k) =>
      CatchUpFollowsDue(w, k);
      AboveIsAnOrder(Due(w).value.version, Due(w).value.version, Due(w).value.version);
      tags := [Due(w).value, CatchUpAt(w, k).value];
  }

  lemma RoundReleases(w: World, p: Phase, d: Decision)
    requires CanRelease(w, p, d)
    ensures Releases(w, d)
  {
    var reservations := SomeReservations(w, p);
    DecisionInPhase(w, p, reservations);
  }

  lemma CatchUpIsARelease(w: World)
    requires w.covered <= |w.history|
    ensures var answer := CatchUpRelease(Queue(w), w.version); answer.Decided? ==> answer.value.Release?
  {
  }

  /** The next release of a world in which nothing is running yet: a run of it can be started. */
  lemma NextDecision(w: World, p: Phase) returns (d: Decision)
    requires In(w, p) && Tracked(w) && w.running == map[] && !Waits(w, p)
    requires p.Quiet? ==> Due(w).Some?
    ensures CanRelease(w, p, d) && CanStart(w, d.version)
  {
    hide InQuiet, InRecovering, InCatchingUp, InLost, CatchUpTag, CatchUpRelease, CanStart;
    AnswerRefusesExactly(w, p);
    d := Answer(w, p).value;
    match p
    case Quiet => DueCanStart(w);
    case _ =>
      CatchUpIsARelease(w);
      CatchUpCanStart(w, p, d);
  }

  lemma DueCanStart(w: World)
    requires In(w, Quiet) && Tracked(w) && w.running == map[] && Due(w).Some? && !Waits(w, Quiet)
    ensures CanStart(w, Due(w).value.version)
  {
    hide InQuiet, NextTag, CanStart;
    TagsRise(w);
    assert TrackedAt(w, Due(w).value.version);
    CanStartExactly(w, Due(w).value.version);
  }

  lemma CatchUpCanStart(w: World, p: Phase, d: Decision)
    requires In(w, p) && Tracked(w) && w.running == map[] && !Waits(w, p) && !p.Quiet?
    requires CatchUpRelease(Queue(w), w.version) == Decided(d) && d.Release?
    ensures CanStart(w, d.version)
  {
    hide InQuiet, InRecovering, InCatchingUp, InLost, CatchUpTag, CatchUpRelease, NextTag, CanStart, Pending;
    CatchUpNow(w);
    if p.Recovering? {
      CatchUpVersionIsNew(w, d);
      UnreservedIsFresh(w, d.version);
    }
  }

  lemma ReserveNext(w: World, p: Phase, d: Decision) returns (w': World, q: Phase)
    requires CanRelease(w, p, d) && Tracked(w) && w.running == map[] && CanStart(w, d.version)
    ensures OwnStep(w, w') && CanRelease(w', q, d) && Tracked(w') && Remaining(w', q) == Remaining(w, p)
    ensures w'.tags == w.tags[d.version := d.item.commit] && CanStart(w', d.version)
    ensures w'.running == map[] && w'.history == w.history && w'.released == w.released
  {
    hide InQuiet, InRecovering, InCatchingUp, InLost, CatchUpRelease, ReleaseRecovery;
    RoundReleases(w, p, d);
    w' := w.(tags := w.tags[d.version := d.item.commit]);
    q := After(w, p, Reserve(d));
    StepsTowardsTheEnd(w, p, Reserve(d), w');
    StepKeepsTracked(w, p, Reserve(d), w');
    OwnStepIs(w, Reserve(d), w');
  }

  lemma StartNext(w: World, p: Phase, d: Decision) returns (w': World)
    requires CanRelease(w, p, d) && Tracked(w) && w.running == map[] && CanStart(w, d.version)
    requires d.version in w.tags && w.tags[d.version] == d.item.commit
    ensures OwnStep(w, w') && In(w', p) && Tracked(w') && Remaining(w', p) == Remaining(w, p)
    ensures w'.running == map[d.version := w.covered + d.at] && w'.covered == w.covered
    ensures w'.attempts == w.attempts[d.version := AttemptsAt(w, d.version) + 1] && w'.ended == w.ended
    ensures w'.history == w.history && w'.released == w.released && w'.tags == w.tags && w'.failed == w.failed
  {
    hide InQuiet, InRecovering, InCatchingUp, InLost, CatchUpRelease, CanStart;
    RoundReleases(w, p, d);
    w' := w.(running := w.running[d.version := w.covered + d.at],
             attempts := w.attempts[d.version := AttemptsAt(w, d.version) + 1]);
    StepsTowardsTheEnd(w, p, Start(d), w');
    StepKeepsTracked(w, p, Start(d), w');
    OwnStepIs(w, Start(d), w');
  }

  lemma PublishNext(w: World, p: Phase, v: Version) returns (w': World)
    requires In(w, p) && Tracked(w) && v in w.running
    ensures OwnStep(w, w') && In(w', Quiet) && Tracked(w') && !Waits(w', Quiet)
    ensures Remaining(w', Quiet) == Remaining(w, p) - 1
    ensures w'.history == w.history && |w'.released| == |w.released| + 1
  {
    hide InQuiet, InRecovering, InCatchingUp, InLost;
    w' := w.(covered := w.running[v] + 1, version := v, running := w.running - {v},
             released := w.released + [Published(w.running[v], v)]);
    StepsTowardsTheEnd(w, p, Publish(v), w');
    StepKeepsTracked(w, p, Publish(v), w');
    PublishIsNotStuck(w, p, v, w');
    OwnStepIs(w, Publish(v), w');
  }

  /** Unless the queue is stuck, waits or has nothing to release, it can get to its next publication alone. */
  lemma NextPublication(w: World, p: Phase) returns (worlds: seq<World>)
    requires In(w, p) && Tracked(w) && !Waits(w, p) && (p.Quiet? ==> Due(w).Some?)
    ensures OwnPath(worlds) && worlds[0] == w
    ensures var last := worlds[|worlds| - 1];
      && In(last, Quiet) && Tracked(last) && !Waits(last, Quiet) && Remaining(last, Quiet) == Remaining(w, p) - 1
      && last.history == w.history && |last.released| == |w.released| + 1
  {
    hide In, OwnStep, Waits, Tracked, CanStart;
    if w.running == map[] {
      var d := NextDecision(w, p);
      var w1, q := ReserveNext(w, p, d);
      var w2 := StartNext(w1, q, d);
      var w3 := PublishNext(w2, q, d.version);
      worlds := [w, w1, w2, w3];
    } else {
      var v :| v in w.running;
      var w1 := PublishNext(w, p, v);
      worlds := [w, w1];
    }
  }

  /** And so to a deployment, after as many publications as remain. */
  lemma {:induction false} QueueDrains(w: World, p: Phase) returns (worlds: seq<World>)
    requires In(w, p) && Tracked(w) && !Waits(w, p)
    ensures OwnPath(worlds) && worlds[0] == w
    ensures var last := worlds[|worlds| - 1];
      && In(last, Quiet) && Remaining(last, Quiet) == 0 && Deploys(last)
      && last.history == w.history && |last.released| == |w.released| + Remaining(w, p)
    decreases Remaining(w, p)
  {
    hide InQuiet, InRecovering, InCatchingUp, InLost, OwnStep, Deploys, Bumps, Pending, Waits, Tracked;
    if p.Quiet? && Due(w).None? {
      worlds := [w];
      QuietDeploys(w);
    } else {
      var some := NextPublication(w, p);
      var rest := QueueDrains(some[|some| - 1], Quiet);
      Joined(some, rest);
      worlds := some + rest[1..];
    }
  }

  lemma QuietDeploys(w: World)
    requires In(w, Quiet) && Due(w).None?
    ensures Deploys(w) && Remaining(w, Quiet) == 0
  {
    NoneBearing(Queue(w));
    assert Reservations(w, []);
    DecisionInPhase(w, Quiet, []);
  }

  ghost predicate CanDeploy(w: World) {
    exists worlds :: OwnPath(worlds) && worlds[0] == w && Deploys(worlds[|worlds| - 1])
  }

  /**
   By itself the queue can get to a deployment exactly if it is not stuck, does not lack a source, and does not wait
   for a failure to be declared.
   */
  lemma DrainsExactly(w: World, p: Phase)
    requires In(w, p) && Tracked(w)
    ensures CanDeploy(w) <==> !Stuck(w, p) && !AwaitsSource(w, p) && !AwaitsFailure(w, p)
  {
    hide In, Deploys, Stuck, Tracked, Releases, OwnStep, AwaitsSource, AwaitsFailure, Idle;
    if Waits(w, p) {
      NothingToDo(w, p);
      forall worlds | OwnPath(worlds) && worlds[0] == w ensures worlds[|worlds| - 1] == w {
        StaysPut(w, worlds);
      }
    } else {
      var worlds := QueueDrains(w, p);
    }
  }

  lemma {:induction false} StaysPut(w: World, worlds: seq<World>)
    requires w.running == map[] && forall d :: Releases(w, d) ==> Idle(w, d)
    requires OwnPath(worlds) && worlds[0] == w
    ensures worlds[|worlds| - 1] == w
    decreases |worlds|
  {
    hide OwnStep, Idle;
    if |worlds| > 1 {
      assert OwnStep(worlds[0], worlds[1]);
      IdleStepIsNone(w, worlds[1]);
      var rest := worlds[1..];
      forall i | 0 <= i < |rest| - 1 ensures OwnStep(rest[i], rest[i + 1]) {
        assert OwnStep(worlds[i + 1], worlds[i + 2]);
      }
      StaysPut(w, rest);
    }
  }

  lemma IdleStepIsNone(w: World, w': World)
    requires w.running == map[] && (forall d :: Releases(w, d) ==> Idle(w, d)) && OwnStep(w, w')
    ensures w' == w
  {
    hide Releases, CanStart;
    var e: Event :| (e.Reserve? || e.Start? || e.Publish?) && Step(w, e, w');
    if e.Reserve? {
      assert w'.tags == w.tags;
    }
  }

  /** A queue that waits for a source goes on as soon as a merge comes in that asks for a release. */
  lemma SourceEndsTheWait(w: World, m: Merge, w': World)
    requires In(w, Recovering) && Tracked(w) && Step(w, Merged(m), w') && Bearing(m)
    ensures In(w', Recovering) && Tracked(w') && !AwaitsSource(w', Recovering) && CanDeploy(w')
  {
    hide InQuiet, InCatchingUp, InLost, CatchUpTag, CanDeploy, NextTag, Bumps, Tracked, Pending;
    StepKeepsPhase(w, Recovering, Merged(m), w');
    StepKeepsTracked(w, Recovering, Merged(m), w');
    MergedKeepsDue(w, m);
    assert w'.history[w.covered..|w'.history|] == Queue(w) + [m];
    SourceComes(Queue(w), m, w.version);
    DrainsExactly(w', Recovering);
  }

  /**
   A queue that waits for a failure goes on once it is declared, if a later merge asks for a release, or with
   the next.
   */
  lemma FailureEndsTheWait(w: World) returns (w': World)
    requires In(w, Quiet) && Tracked(w) && AwaitsFailure(w, Quiet)
    ensures Step(w, Fail(Due(w).value), w') && In(w', Recovering) && Tracked(w')
    ensures CanDeploy(w') <==> CatchUpAt(w, |w.history|).Some?
  {
    hide InRecovering, InCatchingUp, InLost, NextTag, CatchUpTag, CanDeploy, Pending;
    var own := Due(w).value;
    DueIsReserved(w);
    ActiveAre(w.failed, w.version);
    w' := w.(failed := w.failed + [own]);
    StepKeepsPhase(w, Quiet, Fail(own), w');
    StepKeepsTracked(w, Quiet, Fail(own), w');
    FailChangesNothingElse(w, own);
    DrainsExactly(w', Recovering);
  }

  lemma SourceComes(merges: seq<Merge>, m: Merge, published: Version)
    requires NextTag(merges, published).Some? && Bearing(m)
    ensures CatchUpTag(merges + [m], published).Some?
  {
    PendingStays(merges, [m]);
    var at := Pending(merges).value;
    assert (merges + [m])[at + 1..] == merges[at + 1..] + [m];
    BumpsConcat(merges[at + 1..], [m]);
    assert Bumps([m]) == [BumpFor(m).value];
    AskedForIsCombined(merges[at + 1..] + [m], BumpFor(m).value);
  }

  lemma AskedForIsCombined(merges: seq<Merge>, bump: Bump)
    requires bump in Bumps(merges)
    ensures CombinedBump(merges).Some?
  {
    assert bump.Major? || bump.Minor? || bump.Patch?;
  }

  // ----- Runs that end stuck -----------------------------------------------------------------------------------------

  ghost predicate Reachable(w: World, p: Phase) {
    In(w, p) && Tracked(w) && exists worlds, events :: Run(worlds, events) && worlds[|events|] == w
  }

  lemma ReachableNext(w: World, p: Phase, e: Event, w': World)
    requires Reachable(w, p) && Step(w, e, w')
    ensures Reachable(w', After(w, p, e))
  {
    hide Step, Initial, In, Tracked;
    StepKeepsPhase(w, p, e, w');
    StepKeepsTracked(w, p, e, w');
    var worlds, events :| Run(worlds, events) && worlds[|events|] == w;
    var worlds', events' := worlds + [w'], events + [e];
    forall i | 0 <= i < |events'| ensures Step(worlds'[i], events'[i], worlds'[i + 1]) {
      if i < |events| {
        assert Step(worlds[i], events[i], worlds[i + 1]);
      }
    }
    assert Run(worlds', events') && worlds'[|events'|] == w';
  }

  lemma ReachableIsIn(w: World, p: Phase)
    requires Reachable(w, p)
    ensures In(w, p) && Tracked(w)
  {
  }

  function PatchAt(commit: string): Merge {
    Merge(Sha(commit), Some(Patch), None)
  }

  /** The run of a reserved tag is started, and stops. */
  lemma Tries(w: World, p: Phase, d: Decision, ending: Ending) returns (w': World)
    requires Reachable(w, p) && CanRelease(w, p, d) && w.running == map[] && CanStart(w, d.version)
    requires d.version in w.tags && w.tags[d.version] == d.item.commit
    ensures Reachable(w', p) && CanRelease(w', p, d)
    ensures w' == w.(attempts := w.attempts[d.version := AttemptsAt(w, d.version) + 1],
                     ended := w.ended[d.version := ending])
  {
    hide In, Tracked, CanStart, CatchUpRelease, Pending;
    RoundReleases(w, p, d);
    var w1 := w.(running := w.running[d.version := w.covered + d.at],
                 attempts := w.attempts[d.version := AttemptsAt(w, d.version) + 1]);
    ReachableNext(w, p, Start(d), w1);
    assert w1.running - {d.version} == map[];
    w' := w1.(running := map[], ended := w1.ended[d.version := ending]);
    ReachableNext(w1, p, Stop(d.version, ending), w');
  }

  /** One merge, whose release is reserved. */
  lemma DueRun() returns (w: World, d: Decision)
    ensures Reachable(w, Quiet) && w.history == [PatchAt("a")] && w.running == map[] && w.failed == []
    ensures w.attempts == map[] && w.covered == 0
    ensures CanRelease(w, Quiet, d) && CanStart(w, d.version) && Above(d.version, w.version)
    ensures d.version in w.tags && w.tags[d.version] == d.item.commit
    ensures Due(w) == Some(Tag(d.version, d.item.commit))
  {
    var start := World(Version(0, 0, 0), Sha(""), [], 0, Version(0, 0, 0), map[], map[], map[], map[], [], []);
    var none: seq<Event> := [];
    InitiallyQuiet(start);
    assert Run([start], none) && [start][|none|] == start;
    InitiallyTracked(start);
    var w1 := start.(history := start.history + [PatchAt("a")]);
    ReachableNext(start, Quiet, Merged(PatchAt("a")), w1);
    d := Release(PatchAt("a"), 0, Patch, Version(0, 0, 1));
    FirstIsDue(w1, d);
    ReserveIsReached(w1, d);
    w := w1.(tags := w1.tags[d.version := d.item.commit]);
    FirstIsDue(w, d);
  }

  lemma FirstIsDue(w: World, d: Decision)
    requires w.history == [PatchAt("a")] && w.covered == 0 && w.version == Version(0, 0, 0) && w.attempts == map[]
    requires w.running == map[] && w.ended == map[] && d == Release(PatchAt("a"), 0, Patch, Version(0, 0, 1))
    ensures Answer(w, Quiet) == Decided(d) && CanStart(w, d.version) && Due(w) == Some(Tag(d.version, d.item.commit))
  {
    assert Queue(w) == [PatchAt("a")];
    StartsExactly(false, []);
  }

  lemma ReserveIsReached(w: World, d: Decision)
    requires Reachable(w, Quiet) && CanRelease(w, Quiet, d)
    ensures Reachable(w.(tags := w.tags[d.version := d.item.commit]), Quiet)
  {
    hide In, Tracked;
    RoundReleases(w, Quiet, d);
    ReachableNext(w, Quiet, Reserve(d), w.(tags := w.tags[d.version := d.item.commit]));
  }

  /** Its run fails twice, which is declared. */
  lemma FailedRun() returns (w: World)
    ensures Reachable(w, Recovering) && w.running == map[] && w.history == [PatchAt("a")]
  {
    hide In, Tracked, Due, ReleaseRecovery, CanRelease, InQuiet;
    var w1, d := DueRun();
    var w2 := Tries(w1, Quiet, d, Broken);
    ReachableIsIn(w2, Quiet);
    CanStartAgain(w2, d.version);
    var w3 := Tries(w2, Quiet, d, Broken);
    var tag := Tag(d.version, d.item.commit);
    w := w3.(failed := w3.failed + [tag]);
    ReachableNext(w3, Quiet, Fail(tag), w);
  }

  lemma CanStartAgain(w: World, v: Version)
    requires Tracked(w) && Above(v, w.version) && EndedAs(w, v, Broken) && AttemptsAt(w, v) == 1
    ensures CanStart(w, v)
  {
    assert TrackedAt(w, v);
    CanStartExactly(w, v);
  }

  /** A second merge comes in, and the catch-up is reserved. */
  lemma ReservedRun() returns (w: World, d: Decision)
    ensures Reachable(w, CatchingUp(2)) && w.running == map[] && w.history == [PatchAt("a"), PatchAt("b")]
    ensures CanRelease(w, CatchingUp(2), d) && CanStart(w, d.version) && d.version !in w.attempts
    ensures d.version in w.tags && w.tags[d.version] == d.item.commit && Above(d.version, w.version)
  {
    hide InQuiet, InCatchingUp, InLost, Reachable, AwaitsSource, CanDeploy, Tracked, CanStart, CanRelease, Due;
    var w1 := FailedRun();
    ReachableIsIn(w1, Recovering);
    var w2 := w1.(history := w1.history + [PatchAt("b")]);
    ReachableNext(w1, Recovering, Merged(PatchAt("b")), w2);
    SourceEndsTheWait(w1, PatchAt("b"), w2);
    d := NextDecision(w2, Recovering);
    w := CatchUpReservedRun(w2, d);
  }

  lemma CatchUpReservedRun(w: World, d: Decision) returns (w': World)
    requires Reachable(w, Recovering) && CanRelease(w, Recovering, d)
    ensures Reachable(w', CatchingUp(|w.history|)) && CanRelease(w', CatchingUp(|w.history|), d)
    ensures w' == w.(tags := w.tags[d.version := d.item.commit])
    ensures CanStart(w', d.version) && d.version !in w'.attempts && Above(d.version, w.version)
  {
    hide InQuiet, InRecovering, InCatchingUp, InLost, Due, CatchUpRelease, CatchUpTag, Tracked, ReleaseRecovery;
    CatchUpVersionIsNew(w, d);
    UnreservedIsFresh(w, d.version);
    RoundReleases(w, Recovering, d);
    w' := w.(tags := w.tags[d.version := d.item.commit]);
    ReachableNext(w, Recovering, Reserve(d), w');
  }

  /** Both attempts of the catch-up fail. */
  lemma ExhaustedRun() returns (w: World)
    ensures Reachable(w, CatchingUp(2)) && Stuck(w, CatchingUp(2)) && w.history == [PatchAt("a"), PatchAt("b")]
  {
    hide In, Tracked, CanStart, CanRelease, Reachable;
    var w0, d := ReservedRun();
    var w1 := Tries(w0, CatchingUp(2), d, Broken);
    ReachableIsIn(w1, CatchingUp(2));
    CanStartAgain(w1, d.version);
    w := Tries(w1, CatchingUp(2), d, Broken);
    ReachableIsIn(w, CatchingUp(2));
    NoThirdAttempt(w, d);
  }

  lemma NoThirdAttempt(w: World, d: Decision)
    requires CanRelease(w, CatchingUp(|w.history|), d) && Tracked(w) && w.running == map[]
    requires AttemptsAt(w, d.version) == 2 && Above(d.version, w.version)
    ensures Stuck(w, CatchingUp(|w.history|))
  {
    hide InCatchingUp, CanStart, CatchUpRelease;
    CatchUpNow(w);
    assert TrackedAt(w, d.version);
    CanStartExactly(w, d.version);
  }

  /**
   Each way to get stuck is taken by a run: a merge comes in before the run of a catch-up is started; both attempts of
   a catch-up fail; the first run of a release leaves a draft behind.
   */
  lemma StuckIsReached() returns (late: World, exhausted: World, draft: World)
    ensures Reachable(late, CatchingUp(2)) && Stuck(late, CatchingUp(2)) && |late.history| == 3
    ensures Reachable(exhausted, CatchingUp(2)) && Stuck(exhausted, CatchingUp(2)) && |exhausted.history| == 2
    ensures Reachable(draft, Quiet) && Stuck(draft, Quiet)
  {
    hide In, Tracked, CanStart, CanRelease;
    var w, d := ReservedRun();
    late := w.(history := w.history + [PatchAt("c")]);
    ReachableNext(w, CatchingUp(2), Merged(PatchAt("c")), late);
    exhausted := ExhaustedRun();
    var due, r := DueRun();
    draft := Tries(due, Quiet, r, LeftDraft);
  }
}
