/** The slice of history that a branch comparison shows. */
module BranchComparison {
  import opened Common

  // The tips of two branches are balanced against each other, down to their merge base, and a flag tells whether
  // anything in between was cut out.

  const DEFAULT_LIMIT := 8
  const MINIMUM_LIMIT := 1
  const MAXIMUM_LIMIT := 8

  datatype Sha = Sha(text: string)

  datatype Commit = Commit(hash: Sha, parents: seq<Sha>, subject: string)

  datatype Slice = Slice(commits: seq<Commit>, mergeBaseIncluded: bool, truncated: bool)

  /** A limit that is missing or not finite is None. */
  function NormalizeLimit(limit: Option<real>): (r: nat)
    ensures 1 <= r <= 8 && (limit == None ==> r == 8)
    ensures limit.Some? && 1.0 <= limit.value < 8.0 ==> r as real <= limit.value < (r + 1) as real
    ensures limit.Some? ==> (limit.value < 1.0 ==> r == 1) && (limit.value >= 8.0 ==> r == 8)
  {
    match limit
    case None => DEFAULT_LIMIT
    case Some(n) => Max(MINIMUM_LIMIT, Min(MAXIMUM_LIMIT, n.Floor))
  }

  // ----- Commits by hash -----------------------------------------------------------------------------------

  predicate HasHash(commits: seq<Commit>, hash: Sha) {
    exists i :: 0 <= i < |commits| && commits[i].hash == hash
  }

  ghost predicate DistinctHashes(commits: seq<Commit>) {
    forall i, j :: 0 <= i < j < |commits| ==> commits[i].hash != commits[j].hash
  }

  lemma HasHashAppend(commits: seq<Commit>, c: Commit)
    ensures forall h :: HasHash(commits + [c], h) <==> HasHash(commits, h) || h == c.hash
  {
    assert (commits + [c])[|commits|] == c;
    forall h | HasHash(commits, h) ensures HasHash(commits + [c], h) {
      var i :| 0 <= i < |commits| && commits[i].hash == h;
      assert (commits + [c])[i].hash == h;
    }
  }

  /** The commits whose hash has not come before. */
  function Unique(commits: seq<Commit>): (r: seq<Commit>)
    ensures |r| <= |commits|
    ensures DistinctHashes(r)
    ensures forall c :: c in r ==> c in commits
    ensures forall h :: HasHash(commits, h) ==> HasHash(r, h)
  {
    if commits == [] then []
    else
      var last := commits[|commits| - 1];
      var front := Unique(commits[..|commits| - 1]);
      assert commits == commits[..|commits| - 1] + [last];
      HasHashAppend(commits[..|commits| - 1], last);
      HasHashAppend(front, last);
      if HasHash(front, last.hash) then front else front + [last]
  }

  /** The first place where this commit's hash occurs, and the commit that stands there. */
  ghost predicate FirstAt(commits: seq<Commit>, i: int, c: Commit) {
    0 <= i < |commits| && commits[i] == c && forall j :: 0 <= j < i ==> commits[j].hash != c.hash
  }

  /** Each hash once, with the first commit that has it, in the order of these. */
  ghost predicate FirstOfEach(commits: seq<Commit>, r: seq<Commit>) {
    && DistinctHashes(r) && (forall h :: HasHash(r, h) <==> HasHash(commits, h))
    && (forall c :: c in r ==> exists i :: FirstAt(commits, i, c))
    && (forall k, l, i, j :: 0 <= k < l < |r| && FirstAt(commits, i, r[k]) && FirstAt(commits, j, r[l]) ==> i < j)
  }

  lemma {:induction false} UniqueIsFirstOfEach(commits: seq<Commit>)
    ensures FirstOfEach(commits, Unique(commits))
    decreases |commits|
  {
    if commits != [] {
      var n := |commits| - 1;
      var front, last := commits[..n], commits[n];
      UniqueIsFirstOfEach(front);
      assert commits == front + [last];
      FirstOfOneMore(front, Unique(front), last);
    }
  }

  lemma FirstOfOneMore(commits: seq<Commit>, r: seq<Commit>, c: Commit)
    requires FirstOfEach(commits, r)
    ensures FirstOfEach(commits + [c], if HasHash(r, c.hash) then r else r + [c])
  {
    hide HasHash;
    var all, r' := commits + [c], if HasHash(r, c.hash) then r else r + [c];
    HasHashAppend(commits, c);
    HasHashAppend(r, c);
    FirstAtAppend(commits, c);
    NoneAtNewHash(r, c.hash);
    NoneAtNewHash(commits, c.hash);
    assert DistinctHashes(r');
    forall k, l, i, j | 0 <= k < l < |r'| && FirstAt(all, i, r'[k]) && FirstAt(all, j, r'[l]) ensures i < j {
      assert r'[k] == r[k];
      assert l < |r| ==> r'[l] == r[l];
    }
    forall x | x in r' ensures exists i :: FirstAt(all, i, x) {
      if x in r {
        var i :| FirstAt(commits, i, x);
        assert FirstAt(all, i, x);
      } else {
        assert FirstAt(all, |commits|, x);
      }
    }
  }

  lemma FirstAtAppend(commits: seq<Commit>, c: Commit)
    ensures forall i, x :: FirstAt(commits + [c], i, x) <==>
              FirstAt(commits, i, x) || (i == |commits| && x == c && !HasHash(commits, c.hash))
  {
    var all := commits + [c];
    assert all[|commits|] == c && forall i :: 0 <= i < |commits| ==> all[i] == commits[i];
  }

  lemma NoneAtNewHash(commits: seq<Commit>, hash: Sha)
    ensures !HasHash(commits, hash) ==> forall i :: 0 <= i < |commits| ==> commits[i].hash != hash
  {
  }

  method UniqueByHash(commits: seq<Commit>) returns (r: seq<Commit>)
    ensures r == Unique(commits) && FirstOfEach(commits, r)
  {
    UniqueIsFirstOfEach(commits);
    var seen: set<Sha> := {};
    r := [];
    for i := 0 to |commits|
      invariant r == Unique(commits[..i])
      invariant forall h :: h in seen <==> HasHash(r, h)
    {
      assert commits[..i + 1][..i] == commits[..i];
      if commits[i].hash !in seen {
        HasHashAppend(r, commits[i]);
        seen := seen + {commits[i].hash};
        r := r + [commits[i]];
      }
    }
    assert commits[..|commits|] == commits;
  }

  lemma {:induction false} UniquePrefix(a: seq<Commit>, b: seq<Commit>)
    ensures Unique(a) <= Unique(a + b)
    decreases |b|
  {
    if b == [] {
      assert a + b == a;
    } else {
      var n := |b| - 1;
      UniquePrefix(a, b[..n]);
      assert (a + b)[..|a + b| - 1] == a + b[..n];
    }
  }

  function IndexOfHash(commits: seq<Commit>, hash: Sha): (r: Option<nat>)
    ensures r.Some? <==> HasHash(commits, hash)
    ensures r.Some? ==> r.value < |commits| && commits[r.value].hash == hash && !HasHash(commits[..r.value], hash)
  {
    if commits == [] then None
    else if commits[0].hash == hash then Some(0)
    else
      assert HasHash(commits[1..], hash) ==> HasHash(commits, hash) by {
        if i :| 0 <= i < |commits[1..]| && commits[1..][i].hash == hash {
          assert commits[i + 1].hash == hash;
        }
      }
      assert HasHash(commits, hash) ==> HasHash(commits[1..], hash) by {
        if i :| 0 <= i < |commits| && commits[i].hash == hash {
          assert commits[1..][i - 1].hash == hash;
        }
      }
      match IndexOfHash(commits[1..], hash)
      case None => None
      case Some(i) =>
        assert forall k :: 0 < k <= i ==> commits[k] == commits[1..][..i][k - 1];
        Some(i + 1)
  }

  function CommitsThrough(commits: seq<Commit>, hash: Sha): Option<seq<Commit>> {
    match IndexOfHash(commits, hash)
    case None => None
    case Some(i) => Some(commits[..i + 1])
  }

  // ----- Reachability ----------------------------------------------------------------------------------------

  /** The parents recorded for a hash; of two commits with one hash the later counts. */
  function ParentsOf(commits: seq<Commit>, hash: Sha): seq<Sha> {
    if commits == [] then []
    else if commits[|commits| - 1].hash == hash then commits[|commits| - 1].parents
    else ParentsOf(commits[..|commits| - 1], hash)
  }

  lemma {:induction false} ParentsOfExactly(commits: seq<Commit>, hash: Sha, i: nat)
    requires i < |commits| && commits[i].hash == hash && forall j :: i < j < |commits| ==> commits[j].hash != hash
    ensures ParentsOf(commits, hash) == commits[i].parents
    decreases |commits|
  {
    if i < |commits| - 1 {
      ParentsOfExactly(commits[..|commits| - 1], hash, i);
    }
  }

  /** A walk from hash to parent, every hash but the last standing for a commit of the slice. */
  ghost predicate Path(commits: seq<Commit>, p: seq<Sha>, start: Sha, target: Sha) {
    && p != [] && p[0] == start && p[|p| - 1] == target
    && forall i :: 0 <= i < |p| - 1 ==> p[i + 1] in ParentsOf(commits, p[i])
  }

  ghost predicate Connected(commits: seq<Commit>, start: Sha, target: Sha) {
    exists p :: Path(commits, p, start, target)
  }

  lemma ConnectedStep(commits: seq<Commit>, start: Sha, middle: Sha, next: Sha)
    requires Connected(commits, start, middle) && next in ParentsOf(commits, middle)
    ensures Connected(commits, start, next)
  {
    var p :| Path(commits, p, start, middle);
    assert Path(commits, p + [next], start, next);
  }

  lemma {:induction false} ClosedSetHoldsPaths(commits: seq<Commit>, closed: set<Sha>, p: seq<Sha>, start: Sha,
                                               target: Sha)
    requires Path(commits, p, start, target) && start in closed
    requires forall h, parent :: h in closed && parent in ParentsOf(commits, h) ==> parent in closed
    ensures target in closed
    decreases |p|
  {
    if |p| > 1 {
      assert p[0 + 1] in ParentsOf(commits, p[0]);
      assert Path(commits, p[1..], p[1], target);
      ClosedSetHoldsPaths(commits, closed, p[1..], p[1], target);
    }
  }

  function Members(hashes: seq<Sha>): (r: set<Sha>)
    ensures forall h :: h in r <==> h in hashes
  {
    if hashes == [] then {} else {hashes[0]} + Members(hashes[1..])
  }

  /** Every hash that the search can come across. */
  function Universe(commits: seq<Commit>): (r: set<Sha>)
    ensures forall h, parent :: parent in ParentsOf(commits, h) ==> parent in r
  {
    if commits == [] then {}
    else Members(commits[|commits| - 1].parents) + Universe(commits[..|commits| - 1])
  }

  predicate Truthy(hash: Option<Sha>) {
    hash.Some? && hash.value.text != ""
  }

  /** The search ends, and is right in both directions. */
  method Reaches(commits: seq<Commit>, start: Option<Sha>, target: Sha) returns (r: bool)
    ensures r <==> Truthy(start) && Connected(commits, start.value, target)
  {
    if !Truthy(start) {
      return false;
    }
    var pending := [start.value];
    var visited: set<Sha> := {};
    ghost var universe := Universe(commits) + {start.value};
    assert Path(commits, [start.value], start.value, start.value);
    while |pending| > 0
      invariant visited <= universe && forall h :: h in pending ==> h in universe
      invariant forall h :: h in pending ==> Connected(commits, start.value, h)
      invariant start.value in visited || start.value in pending
      invariant target !in visited
      invariant forall h, parent :: h in visited && parent in ParentsOf(commits, h) ==>
          parent in visited || parent in pending
      decreases universe - visited, |pending|
    {
      var hash := pending[|pending| - 1];
      ghost var before := pending;
      pending := pending[..|pending| - 1];
      assert before == pending + [hash];
      if hash == target {
        return true;
      }
      if hash in visited {
        continue;
      }
      forall parent | parent in ParentsOf(commits, hash) ensures Connected(commits, start.value, parent) {
        ConnectedStep(commits, start.value, hash, parent);
      }
      visited := visited + {hash};
      pending := pending + ParentsOf(commits, hash);
    }
    forall p | Path(commits, p, start.value, target) ensures false {
      ClosedSetHoldsPaths(commits, visited, p, start.value, target);
    }
    r := false;
  }

  // ----- Sharing out the budget --------------------------------------------------------------------------------

  predicate Allocation(headLength: nat, defaultLength: nat, budget: nat, head: nat, base: nat) {
    && head <= headLength && base <= defaultLength
    && (headLength > 0 ==> head >= 1) && (defaultLength > 0 ==> base >= 1)
    && head + base == Min(headLength + defaultLength, Max(budget, Sides(headLength, defaultLength)))
  }

  function Sides(headLength: nat, defaultLength: nat): nat {
    (if headLength > 0 then 1 else 0) + (if defaultLength > 0 then 1 else 0)
  }

  function LargerLeftover(headLength: nat, defaultLength: nat, head: nat, base: nat): int {
    Max(headLength - head, defaultLength - base)
  }

  /** The greedy turns that are left when `remaining` places are. */
  function Allocate(headLength: nat, defaultLength: nat, head: nat, base: nat, remaining: nat): (nat, nat)
    decreases remaining
  {
    var headRemaining, baseRemaining := headLength - head, defaultLength - base;
    if remaining == 0 || (headRemaining <= 0 && baseRemaining <= 0) then (head, base)
    else if headRemaining >= baseRemaining && headRemaining > 0 then
      Allocate(headLength, defaultLength, head + 1, base, remaining - 1)
    else if baseRemaining > 0 then Allocate(headLength, defaultLength, head, base + 1, remaining - 1)
    else Allocate(headLength, defaultLength, head, base, remaining - 1)
  }

  function AllocateBudget(headLength: nat, defaultLength: nat, budget: nat): (nat, nat) {
    var head, base := if headLength > 0 then 1 else 0, if defaultLength > 0 then 1 else 0;
    Allocate(headLength, defaultLength, head, base, Max(0, budget - head - base))
  }

  method AllocateUniqueBudget(headLength: nat, defaultLength: nat, budget: nat) returns (head: nat, base: nat)
    ensures (head, base) == AllocateBudget(headLength, defaultLength, budget)
  {
    head := if headLength > 0 then 1 else 0;
    base := if defaultLength > 0 then 1 else 0;
    var remaining: nat := Max(0, budget - head - base);
    while remaining > 0
      invariant AllocateBudget(headLength, defaultLength, budget)
                == Allocate(headLength, defaultLength, head, base, remaining)
    {
      var headRemaining, baseRemaining := headLength - head, defaultLength - base;
      if headRemaining <= 0 && baseRemaining <= 0 {
        break;
      }
      if headRemaining >= baseRemaining && headRemaining > 0 {
        head := head + 1;
      } else if baseRemaining > 0 {
        base := base + 1;
      }
      remaining := remaining - 1;
    }
  }

  /** The two sides are level, the default's at most one behind, or the longer one has had everything so far. */
  predicate Levelled(headLength: nat, defaultLength: nat, head: nat, base: nat) {
    var a, b := headLength - head, defaultLength - base;
    && head <= headLength && base <= defaultLength
    && (headLength > 0 ==> head >= 1) && (defaultLength > 0 ==> base >= 1)
    && (a <= b || base <= 1)
    && (b <= a + 1 || head <= 1)
  }

  lemma {:induction false} AllocateLevels(headLength: nat, defaultLength: nat, head: nat, base: nat, remaining: nat)
    requires Levelled(headLength, defaultLength, head, base)
    ensures var (head', base') := Allocate(headLength, defaultLength, head, base, remaining);
            && Levelled(headLength, defaultLength, head', base')
            && head' + base' == Min(headLength + defaultLength, head + base + remaining)
    decreases remaining
  {
    var headRemaining, baseRemaining := headLength - head, defaultLength - base;
    if remaining > 0 && (headRemaining > 0 || baseRemaining > 0) {
      if headRemaining >= baseRemaining && headRemaining > 0 {
        AllocateLevels(headLength, defaultLength, head + 1, base, remaining - 1);
      } else {
        AllocateLevels(headLength, defaultLength, head, base + 1, remaining - 1);
      }
    }
  }

  /**
   The greedy allocation uses the whole budget, gives every non-empty side at least one place, and no
   allocation that does the same leaves less of the side that comes off worse.
   */
  lemma AllocationIsOptimal(headLength: nat, defaultLength: nat, budget: nat, head: nat, base: nat)
    requires Allocation(headLength, defaultLength, budget, head, base)
    ensures var (h, d) := AllocateBudget(headLength, defaultLength, budget);
            && Allocation(headLength, defaultLength, budget, h, d)
            && LargerLeftover(headLength, defaultLength, h, d) <= LargerLeftover(headLength, defaultLength, head, base)
  {
    AllocationIsValid(headLength, defaultLength, budget);
  }

  lemma AllocationIsValid(headLength: nat, defaultLength: nat, budget: nat)
    ensures var (h, d) := AllocateBudget(headLength, defaultLength, budget);
            Allocation(headLength, defaultLength, budget, h, d) && Levelled(headLength, defaultLength, h, d)
  {
    var head, base := if headLength > 0 then 1 else 0, if defaultLength > 0 then 1 else 0;
    AllocateLevels(headLength, defaultLength, head, base, Max(0, budget - head - base));
  }

  /** Of all allocations the greedy one is that which levels the sides and, where they cannot be, favours head. */
  lemma AllocationExactly(headLength: nat, defaultLength: nat, budget: nat, head: nat, base: nat)
    ensures AllocateBudget(headLength, defaultLength, budget) == (head, base)
      <==> Allocation(headLength, defaultLength, budget, head, base) && Levelled(headLength, defaultLength, head, base)
  {
    AllocationIsValid(headLength, defaultLength, budget);
  }

  // ----- The slice -----------------------------------------------------------------------------------------------

  function Take(commits: seq<Commit>, n: nat): (r: seq<Commit>)
    ensures |r| <= n && r <= commits
    ensures forall c :: c in r ==> c in commits
  {
    commits[..Min(n, |commits|)]
  }

  function TipOf(commits: seq<Commit>): Option<Sha> {
    if commits == [] then None else Some(commits[0].hash)
  }

  function BalancedTips(head: seq<Commit>, default: seq<Commit>, limit: nat): seq<Commit> {
    var headLimit := (limit + 1) / 2;
    Take(Unique(Take(head, headLimit) + Take(default, limit - headLimit)), limit)
  }

  /** What the slice is cut from: the allotted tips of both sides, then everything from the merge base on. */
  function Candidates(head: seq<Commit>, headBase: nat, default: seq<Commit>, defaultBase: nat, limit: nat): seq<Commit>
    requires headBase < |head| && defaultBase < |default|
  {
    var (headBudget, defaultBudget) := AllocateBudget(headBase, defaultBase, Max(0, limit - 1));
    Take(head[..headBase], headBudget) + Take(default[..defaultBase], defaultBudget)
    + Unique(head[headBase..] + default[defaultBase..])
  }

  ghost predicate ReachesBase(commits: seq<Commit>, tip: Option<Sha>, base: Sha) {
    Truthy(tip) && Connected(commits, tip.value, base)
  }

  function Kept(head: seq<Commit>, h: nat, default: seq<Commit>, d: nat, places: nat): seq<Commit>
    requires h < |head| && d < |default|
  {
    Take(Unique(Candidates(head, h, default, d, places)), places)
  }

  ghost function Described(commits: seq<Commit>, headTip: Option<Sha>, defaultTip: Option<Sha>, base: Sha): Slice {
    Slice(commits, HasHash(commits, base),
          !(ReachesBase(commits, headTip, base) && ReachesBase(commits, defaultTip, base)))
  }

  ghost function SliceOf(head: seq<Commit>, default: seq<Commit>, limit: Option<real>, base: Option<Sha>): Slice {
    var places := NormalizeLimit(limit);
    if !Truthy(base) then Slice(BalancedTips(head, default, places), false, true)
    else
      match (IndexOfHash(head, base.value), IndexOfHash(default, base.value))
      case (Some(h), Some(d)) =>
        Described(Kept(head, h, default, d, places), TipOf(head), TipOf(default), base.value)
      case _ => Slice(BalancedTips(head, default, places), false, true)
  }

  lemma SliceWhenFound(head: seq<Commit>, h: nat, default: seq<Commit>, d: nat, limit: Option<real>, base: Sha)
    requires base.text != "" && IndexOfHash(head, base) == Some(h) && IndexOfHash(default, base) == Some(d)
    ensures SliceOf(head, default, limit, Some(base))
            == Described(Kept(head, h, default, d, NormalizeLimit(limit)), TipOf(head), TipOf(default), base)
  {
  }

  // ----- What is shown -------------------------------------------------------------------------------------------

  /** As many of the first of each as there are places for. */
  ghost predicate FirstPlaces(commits: seq<Commit>, places: nat, shown: seq<Commit>) {
    exists all :: FirstOfEach(commits, all) && shown <= all && |shown| == Min(places, |all|)
  }

  /** The merge base is known, and in both histories. */
  ghost predicate InBoth(head: seq<Commit>, default: seq<Commit>, base: Option<Sha>) {
    base.Some? && base.value.text != "" && HasHash(head, base.value) && HasHash(default, base.value)
  }

  /** Half of the places for the tips of each branch, the odd one for head. */
  ghost predicate ShowsTips(r: Slice, head: seq<Commit>, default: seq<Commit>, places: nat) {
    && !r.mergeBaseIncluded && r.truncated
    && FirstOfEach(head[..Min(places - places / 2, |head|)] + default[..Min(places / 2, |default|)], r.commits)
  }

  ghost predicate BaseAt(commits: seq<Commit>, base: Sha, n: int) {
    0 <= n < |commits| && commits[n].hash == base && !HasHash(commits[..n], base)
  }

  /** The tips that were allotted to the sides above the base, then what both have from the base on. */
  ghost predicate ShowsParts(r: Slice, head: seq<Commit>, h: nat, hb: nat, default: seq<Commit>, d: nat, db: nat,
                             places: nat) {
    && hb <= h < |head| && db <= d < |default|
    && Allocation(h, d, Max(0, places - 1), hb, db) && Levelled(h, d, hb, db)
    && FirstPlaces(head[..hb] + default[..db] + (head[h..] + default[d..]), places, r.commits)
  }

  ghost predicate ShowsDownTo(r: Slice, head: seq<Commit>, default: seq<Commit>, places: nat, base: Sha) {
    && (exists h: nat, hb: nat, d: nat, db: nat ::
          BaseAt(head, base, h) && BaseAt(default, base, d) && ShowsParts(r, head, h, hb, default, d, db, places))
    && (r.mergeBaseIncluded <==> exists c :: c in r.commits && c.hash == base)
    && (!r.truncated <==> TipReaches(r.commits, head, base) && TipReaches(r.commits, default, base))
  }

  /** The tip has a name, and leads from parent to parent to the base. */
  ghost predicate TipReaches(commits: seq<Commit>, side: seq<Commit>, base: Sha) {
    side != [] && side[0].hash.text != "" && Connected(commits, side[0].hash, base)
  }

  ghost predicate Shows(r: Slice, head: seq<Commit>, default: seq<Commit>, places: nat, base: Option<Sha>) {
    if InBoth(head, default, base) then ShowsDownTo(r, head, default, places, base.value)
    else ShowsTips(r, head, default, places)
  }

  lemma {:induction false} UniqueOfUnique(a: seq<Commit>, b: seq<Commit>)
    ensures Unique(a + Unique(b)) == Unique(a + b)
    decreases |b|
  {
    hide Unique, HasHash;
    if b == [] {
      NothingIsUnique();
    } else {
      var n := |b| - 1;
      var f, x := b[..n], b[n];
      UniqueOfUnique(a, f);
      assert b == f + [x] && a + b == a + f + [x];
      UniqueAppend(f, x);
      UniqueAppend(a + f, x);
      if HasHash(Unique(f), x.hash) {
        HashInPart(a, f, x.hash);
      } else {
        UniqueAppend(a + Unique(f), x);
        assert a + (Unique(f) + [x]) == a + Unique(f) + [x];
      }
    }
  }

  lemma NothingIsUnique()
    ensures Unique([]) == []
  {
  }

  lemma UniqueAppend(commits: seq<Commit>, c: Commit)
    ensures Unique(commits + [c]) == var u := Unique(commits); if HasHash(u, c.hash) then u else u + [c]
  {
    assert (commits + [c])[..|commits|] == commits;
  }

  lemma HashInPart(a: seq<Commit>, b: seq<Commit>, hash: Sha)
    requires HasHash(Unique(b), hash)
    ensures HasHash(Unique(a + b), hash)
  {
    var i :| 0 <= i < |Unique(b)| && Unique(b)[i].hash == hash;
    assert Unique(b)[i] in b;
    var k :| 0 <= k < |b| && b[k] == Unique(b)[i];
    assert (a + b)[|a| + k].hash == hash;
  }

  lemma KeptIsFirstPlaces(head: seq<Commit>, h: nat, default: seq<Commit>, d: nat, places: nat)
    returns (hb: nat, db: nat)
    requires h < |head| && d < |default| && places >= 1
    ensures hb <= h && db <= d && Allocation(h, d, places - 1, hb, db) && Levelled(h, d, hb, db)
    ensures FirstPlaces(head[..hb] + default[..db] + (head[h..] + default[d..]), places,
                        Kept(head, h, default, d, places))
  {
    hide AllocateBudget, Unique, FirstOfEach;
    AllocationIsValid(h, d, places - 1);
    var allotted := AllocateBudget(h, d, places - 1);
    hb, db := allotted.0, allotted.1;
    TakeOfPrefix(head, h, hb);
    TakeOfPrefix(default, d, db);
    var tips, common := head[..hb] + default[..db], head[h..] + default[d..];
    UniqueOfUnique(tips, common);
    UniqueIsFirstOfEach(tips + common);
    assert FirstOfEach(tips + common, Unique(Candidates(head, h, default, d, places)));
  }

  lemma TipsAreFirstOfEach(head: seq<Commit>, default: seq<Commit>, places: nat)
    ensures FirstOfEach(head[..Min(places - places / 2, |head|)] + default[..Min(places / 2, |default|)],
                        BalancedTips(head, default, places))
  {
    hide Unique, FirstOfEach;
    var tips := head[..Min(places - places / 2, |head|)] + default[..Min(places / 2, |default|)];
    var half := (places + 1) / 2;
    assert Take(head, half) == head[..Min(half, |head|)];
    assert Take(default, places - half) == default[..Min(places - half, |default|)];
    UniqueIsFirstOfEach(tips);
    assert |Unique(tips)| <= |tips| <= places;
    assert Take(Unique(tips), places) == Unique(tips);
  }

  lemma BaseIsAt(commits: seq<Commit>, base: Sha)
    ensures IndexOfHash(commits, base).Some? <==> HasHash(commits, base)
    ensures IndexOfHash(commits, base).Some? ==> BaseAt(commits, base, IndexOfHash(commits, base).value)
  {
  }

  /** The slice, from the two histories: where its commits come from, and what its flags say. */
  lemma SliceShows(head: seq<Commit>, default: seq<Commit>, limit: Option<real>, base: Option<Sha>)
    ensures Shows(SliceOf(head, default, limit, base), head, default, NormalizeLimit(limit), base)
  {
    hide BalancedTips, Kept, FirstOfEach, FirstPlaces, BaseAt, Allocation, Levelled, Connected;
    var places := NormalizeLimit(limit);
    if InBoth(head, default, base) {
      var r := SliceOf(head, default, limit, base);
      BaseIsAt(head, base.value);
      BaseIsAt(default, base.value);
      var h, d := IndexOfHash(head, base.value).value, IndexOfHash(default, base.value).value;
      var hb, db := KeptIsFirstPlaces(head, h, default, d, places);
      assert ShowsParts(r, head, h, hb, default, d, db, places);
    } else {
      TipsAreFirstOfEach(head, default, places);
    }
  }

  lemma KeptIs(head: seq<Commit>, h: nat, default: seq<Commit>, d: nat, places: nat, hb: nat, db: nat)
    requires h < |head| && d < |default| && (hb, db) == AllocateBudget(h, d, Max(0, places - 1))
    ensures Kept(head, h, default, d, places) ==
      Take(Unique(Take(head[..h], hb) + Take(default[..d], db) + Unique(head[h..] + default[d..])), places)
  {
  }

  method BuildSlice(head: seq<Commit>, default: seq<Commit>, limit: Option<real>, base: Option<Sha>) returns (r: Slice)
    ensures r == SliceOf(head, default, limit, base)
    ensures Shows(r, head, default, NormalizeLimit(limit), base)
  {
    hide Shows, FirstOfEach, DistinctHashes, AllocateBudget, Connected, Unique, Take, Kept, HasHash, BalancedTips;
    SliceShows(head, default, limit, base);
    var places := NormalizeLimit(limit);
    if !Truthy(base) {
      return Slice(BalancedTips(head, default, places), false, true);
    }
    var headThroughBase, defaultThroughBase := CommitsThrough(head, base.value), CommitsThrough(default, base.value);
    if headThroughBase.None? || defaultThroughBase.None? {
      return Slice(BalancedTips(head, default, places), false, true);
    }
    var h, d := |headThroughBase.value| - 1, |defaultThroughBase.value| - 1;
    var headUnique, defaultUnique := headThroughBase.value[..h], defaultThroughBase.value[..d];
    assert headUnique == head[..h] && defaultUnique == default[..d];
    var common := UniqueByHash(head[h..] + default[d..]);
    AllocationIsValid(|headUnique|, |defaultUnique|, Max(0, places - 1));
    var headBudget, defaultBudget := AllocateUniqueBudget(|headUnique|, |defaultUnique|, Max(0, places - 1));
    var unique := UniqueByHash(Take(headUnique, headBudget) + Take(defaultUnique, defaultBudget) + common);
    var commits := Take(unique, places);
    KeptIs(head, h, default, d, places, headBudget, defaultBudget);
    var headReaches := Reaches(commits, TipOf(head), base.value);
    var defaultReaches := Reaches(commits, TipOf(default), base.value);
    r := Slice(commits, HasHash(commits, base.value), !(headReaches && defaultReaches));
    SliceWhenFound(head, h, default, d, limit, base.value);
    assert r == Described(commits, TipOf(head), TipOf(default), base.value);
  }

  lemma TakeKeepsDistinct(commits: seq<Commit>, n: nat)
    requires DistinctHashes(commits)
    ensures DistinctHashes(Take(commits, n))
  {
  }

  /** Among the first `budget` commits, or at the base or beyond. */
  ghost predicate Eligible(side: seq<Commit>, n: nat, budget: nat, c: Commit) {
    exists i :: 0 <= i < |side| && (i < budget || i >= n) && side[i] == c
  }

  lemma CandidatesAreEligible(head: seq<Commit>, h: nat, default: seq<Commit>, d: nat, places: nat, c: Commit)
    requires h < |head| && d < |default| && c in Candidates(head, h, default, d, places)
    ensures var (headBudget, defaultBudget) := AllocateBudget(h, d, Max(0, places - 1));
            Eligible(head, h, headBudget, c) || Eligible(default, d, defaultBudget, c)
  {
    var (headBudget, defaultBudget) := AllocateBudget(h, d, Max(0, places - 1));
    var headTips, defaultTips, common := Take(head[..h], headBudget), Take(default[..d], defaultBudget),
        head[h..] + default[d..];
    if c in headTips {
      var i :| 0 <= i < |headTips| && headTips[i] == c;
      assert head[i] == c;
    } else if c in defaultTips {
      var i :| 0 <= i < |defaultTips| && defaultTips[i] == c;
      assert default[i] == c;
    } else {
      var i :| 0 <= i < |common| && common[i] == c;
      if i < |head| - h {
        assert head[h + i] == c;
      } else {
        assert default[d + (i - (|head| - h))] == c;
      }
    }
  }

  lemma KeptIsBounded(head: seq<Commit>, h: nat, default: seq<Commit>, d: nat, places: nat)
    requires h < |head| && d < |default|
    ensures var r := Kept(head, h, default, d, places);
            DistinctHashes(r) && |r| <= places && forall c :: c in r ==> c in head || c in default
  {
    var candidates := Candidates(head, h, default, d, places);
    TakeKeepsDistinct(Unique(candidates), places);
    forall c | c in Take(Unique(candidates), places) ensures c in head || c in default {
      CandidatesAreEligible(head, h, default, d, places, c);
    }
  }

  lemma BalancedTipsAreBounded(head: seq<Commit>, default: seq<Commit>, places: nat)
    ensures var r := BalancedTips(head, default, places);
            DistinctHashes(r) && |r| <= places && forall c :: c in r ==> c in head || c in default
  {
    var headLimit := (places + 1) / 2;
    var tips := Take(head, headLimit) + Take(default, places - headLimit);
    TakeKeepsDistinct(Unique(tips), places);
    assert forall c :: c in tips ==> c in head || c in default;
  }

  /** However the input looks: no hash twice, no more commits than asked for, nothing made up. */
  lemma SliceIsBounded(head: seq<Commit>, default: seq<Commit>, limit: Option<real>, base: Option<Sha>)
    ensures var r := SliceOf(head, default, limit, base);
            && DistinctHashes(r.commits)
            && |r.commits| <= NormalizeLimit(limit)
            && (forall c :: c in r.commits ==> c in head || c in default)
  {
    var places := NormalizeLimit(limit);
    BalancedTipsAreBounded(head, default, places);
    if Truthy(base) && IndexOfHash(head, base.value).Some? && IndexOfHash(default, base.value).Some? {
      KeptIsBounded(head, IndexOfHash(head, base.value).value, default, IndexOfHash(default, base.value).value, places);
    }
  }

  // ----- Two histories down to their merge base ------------------------------------------------------------------

  /** One commit per hash, in both histories together. */
  ghost predicate Consistent(head: seq<Commit>, default: seq<Commit>) {
    forall c, d :: (c in head || c in default) && (d in head || d in default) && c.hash == d.hash ==> c == d
  }

  /** Each commit lists the next one as a parent, down to the base at the given place. */
  ghost predicate ChainTo(commits: seq<Commit>, n: nat, base: Sha) {
    && IndexOfHash(commits, base) == Some(n)
    && n < |commits|
    && commits[0].hash.text != ""
    && forall i :: 0 <= i < n ==> commits[i + 1].hash in commits[i].parents
  }

  lemma {:induction false} ParentsOfMember(commits: seq<Commit>, c: Commit)
    requires DistinctHashes(commits) && c in commits
    ensures ParentsOf(commits, c.hash) == c.parents
  {
    var last := |commits| - 1;
    var i :| 0 <= i <= last && commits[i] == c;
    if i < last {
      assert commits[..last][i] == c;
      ParentsOfMember(commits[..last], c);
    }
  }

  /** A slice that holds a whole chain connects its tip with the base. */
  lemma ChainConnects(commits: seq<Commit>, chain: seq<Commit>, n: nat, base: Sha)
    requires DistinctHashes(commits) && ChainTo(chain, n, base)
    requires forall i :: 0 <= i < n ==> chain[i] in commits
    ensures ReachesBase(commits, TipOf(chain), base)
  {
    var p := seq(n + 1, i requires 0 <= i <= n => chain[i].hash);
    forall i | 0 <= i < |p| - 1 ensures p[i + 1] in ParentsOf(commits, p[i]) {
      ParentsOfMember(commits, chain[i]);
    }
    assert Path(commits, p, chain[0].hash, base);
  }

  /** Cutting off what follows leaves what came first. */
  lemma FirstPartIsKept(kept: seq<Commit>, rest: seq<Commit>, places: nat, c: Commit)
    requires |kept| <= places && c in kept
    requires forall x, y :: x in kept && y in kept && x.hash == y.hash ==> x == y
    ensures c in Take(Unique(kept + rest), places)
  {
    UniquePrefix(kept, rest);
    var i :| 0 <= i < |kept| && kept[i] == c;
    assert HasHash(kept, c.hash);
    var j :| 0 <= j < |Unique(kept)| && Unique(kept)[j].hash == c.hash;
    assert Unique(kept)[j] in kept;
    assert Take(Unique(kept + rest), places)[j] == Unique(kept)[j];
  }

  lemma Regroup(a: seq<Commit>, b: seq<Commit>, c: Commit, rest: seq<Commit>)
    ensures a + b + ([c] + rest) == a + b + [c] + rest
  {
  }

  lemma TakeOfPrefix(commits: seq<Commit>, n: nat, budget: nat)
    requires budget <= n <= |commits|
    ensures Take(commits[..n], budget) == commits[..budget]
  {
  }

  lemma AllottedCandidates(head: seq<Commit>, h: nat, default: seq<Commit>, d: nat, places: nat)
    returns (hb: nat, db: nat, rest: seq<Commit>)
    requires h < |head| && d < |default|
    ensures (hb, db) == AllocateBudget(h, d, Max(0, places - 1)) && hb <= h && db <= d
    ensures Candidates(head, h, default, d, places) == head[..hb] + default[..db] + [head[h]] + rest
  {
    AllocationIsValid(h, d, Max(0, places - 1));
    var allotted := AllocateBudget(h, d, Max(0, places - 1));
    hb, db := allotted.0, allotted.1;
    var common := Unique(head[h..] + default[d..]);
    FirstStaysFirst(head[h..] + default[d..]);
    rest := common[1..];
    TakeOfPrefix(head, h, hb);
    TakeOfPrefix(default, d, db);
    assert common == [head[h]] + rest;
    Regroup(head[..hb], default[..db], head[h], rest);
  }

  lemma BudgetCoversBoth(h: nat, d: nat, places: nat)
    requires places >= 1
    ensures AllocateBudget(h, d, Max(0, places - 1)) == (h, d) <==> h + d < places || (h <= 1 && d <= 1)
  {
    AllocationIsValid(h, d, Max(0, places - 1));
  }

  /** If the parts above the base fit, everything above the base and the base itself are kept. */
  lemma FittingPartsAreKept(head: seq<Commit>, h: nat, default: seq<Commit>, d: nat, places: nat, c: Commit)
    requires h < |head| && d < |default| && h + d + 1 <= places
    requires Consistent(head, default)
    requires c in head[..h] || c in default[..d] || c == head[h]
    ensures c in Kept(head, h, default, d, places)
  {
    BudgetCoversBoth(h, d, places);
    var hb, db, rest := AllottedCandidates(head, h, default, d, places);
    var kept := head[..h] + default[..d] + [head[h]];
    assert forall x :: x in kept ==> x in head || x in default;
    FirstPartIsKept(kept, rest, places, c);
  }

  lemma {:induction false} FirstStaysFirst(commits: seq<Commit>)
    requires commits != []
    ensures Unique(commits) != [] && Unique(commits)[0] == commits[0]
  {
    assert Unique([commits[0]]) == [commits[0]] by {
      assert [commits[0]][..0] == [];
      assert !HasHash([], commits[0].hash);
    }
    UniquePrefix([commits[0]], commits[1..]);
    assert [commits[0]] + commits[1..] == commits;
  }

  /**
   Two parent chains whose parts above the merge base fit in all places but one are shown whole: both
   chains, the base, and no truncation.
   */
  lemma FittingChainsAreComplete(head: seq<Commit>, h: nat, default: seq<Commit>, d: nat, limit: Option<real>,
                                 base: Sha)
    requires Consistent(head, default) && base.text != ""
    requires ChainTo(head, h, base) && ChainTo(default, d, base)
    requires h + d <= NormalizeLimit(limit) - 1
    ensures var r := SliceOf(head, default, limit, Some(base));
            && (forall i :: 0 <= i <= h ==> head[i] in r.commits)
            && (forall i :: 0 <= i <= d ==> default[i] in r.commits)
            && r.mergeBaseIncluded && !r.truncated
  {
    var places := NormalizeLimit(limit);
    var r := SliceOf(head, default, limit, Some(base));
    SliceIsBounded(head, default, limit, Some(base));
    forall i | 0 <= i <= h ensures head[i] in r.commits {
      assert i < h ==> head[i] == head[..h][i];
      FittingPartsAreKept(head, h, default, d, places, head[i]);
    }
    assert default[d] == head[h];
    forall i | 0 <= i <= d ensures default[i] in r.commits {
      assert i < d ==> default[i] == default[..d][i];
      FittingPartsAreKept(head, h, default, d, places, default[i]);
    }
    ChainConnects(r.commits, head, h, base);
    ChainConnects(r.commits, default, d, base);
  }

  // ----- When the base is shown ----------------------------------------------------------------------------------

  /** A commit with a new hash is kept exactly if fewer hashes than places come before it. */
  lemma NewHashIsKeptExactly(before: seq<Commit>, c: Commit, rest: seq<Commit>, places: nat)
    requires !HasHash(before, c.hash)
    ensures HasHash(Take(Unique(before + [c] + rest), places), c.hash) <==> |Unique(before)| < places
  {
    var first, all := Unique(before), Unique(before + [c] + rest);
    assert (before + [c])[..|before|] == before;
    forall i | 0 <= i < |first| ensures first[i].hash != c.hash {
      assert first[i] in before;
    }
    UniquePrefix(before + [c], rest);
    assert first + [c] <= all;
    assert all[|first|] == c && forall i :: 0 <= i < |first| ==> all[i] == first[i];
    if |first| < places {
      assert Take(all, places)[|first|] == c;
    } else {
      assert forall i :: 0 <= i < places ==> Take(all, places)[i] == first[i];
    }
  }

  lemma HashesOfTwo(a: Commit, b: Commit)
    ensures |Unique([a, b])| == if a.hash == b.hash then 1 else 2
  {
    assert [a, b][..1] == [a];
    FirstStaysFirst([a]);
    assert [a][..0] == [];
    assert Unique([a]) == [a];
    assert HasHash([a], b.hash) <==> [a][0].hash == b.hash;
  }

  lemma AllottedTipsCount(head: seq<Commit>, h: nat, default: seq<Commit>, d: nat, places: nat)
    requires h < |head| && d < |default| && places >= 1
    ensures var (hb, db) := AllocateBudget(h, d, Max(0, places - 1));
      hb <= h && db <= d && (|Unique(head[..hb] + default[..db])| < places
                             <==> Sides(h, d) < places || (places == 2 && head[0].hash == default[0].hash))
  {
    hide Unique, AllocateBudget;
    AllocationIsValid(h, d, Max(0, places - 1));
    var (hb, db) := AllocateBudget(h, d, Max(0, places - 1));
    var tips := head[..hb] + default[..db];
    if hb + db > 0 {
      FirstStaysFirst(tips);
    }
    if places == 2 && Sides(h, d) == 2 {
      assert tips == [head[0], default[0]];
      HashesOfTwo(head[0], default[0]);
    }
  }

  /**
   For any two histories that have the base: it is shown exactly if there are more places than sides with commits
   of their own, or both tips are one commit and there are two places.
   */
  lemma BaseIsShownExactly(head: seq<Commit>, h: nat, default: seq<Commit>, d: nat, places: nat, base: Sha)
    requires places >= 1 && IndexOfHash(head, base) == Some(h) && IndexOfHash(default, base) == Some(d)
    ensures HasHash(Kept(head, h, default, d, places), base)
            <==> Sides(h, d) < places || (places == 2 && head[0].hash == default[0].hash)
  {
    hide Candidates, Unique, AllocateBudget, HasHash;
    var hb, db, rest := AllottedCandidates(head, h, default, d, places);
    AllottedTipsCount(head, h, default, d, places);
    TipsLackBase(head, h, hb, default, d, db, base);
    NewHashIsKeptExactly(head[..hb] + default[..db], head[h], rest, places);
  }

  lemma TipsLackBase(head: seq<Commit>, h: nat, hb: nat, default: seq<Commit>, d: nat, db: nat, base: Sha)
    requires IndexOfHash(head, base) == Some(h) && IndexOfHash(default, base) == Some(d) && hb <= h && db <= d
    ensures !HasHash(head[..hb] + default[..db], base)
  {
    var tips := head[..hb] + default[..db];
    forall i | 0 <= i < |tips| ensures tips[i].hash != base {
      if i < hb {
        assert tips[i] == head[..h][i];
      } else {
        assert tips[i] == default[..d][i - hb];
      }
    }
  }

  /** The flag of the base, for every input. */
  lemma BaseFlagExactly(head: seq<Commit>, default: seq<Commit>, limit: Option<real>, base: Option<Sha>)
    ensures var r, places := SliceOf(head, default, limit, base), NormalizeLimit(limit);
      r.mergeBaseIncluded <==>
        && Truthy(base) && IndexOfHash(head, base.value).Some? && IndexOfHash(default, base.value).Some?
        && (Sides(IndexOfHash(head, base.value).value, IndexOfHash(default, base.value).value) < places
            || (places == 2 && head[0].hash == default[0].hash))
  {
    if Truthy(base) && IndexOfHash(head, base.value).Some? && IndexOfHash(default, base.value).Some? {
      var h, d := IndexOfHash(head, base.value).value, IndexOfHash(default, base.value).value;
      BaseIsShownExactly(head, h, default, d, NormalizeLimit(limit), base.value);
    }
  }

  /** With three places or more, a slice that counts as whole shows the base. */
  lemma WholeSlicesShowTheBase(head: seq<Commit>, default: seq<Commit>, limit: Option<real>, base: Option<Sha>)
    requires NormalizeLimit(limit) >= 3
    ensures var r := SliceOf(head, default, limit, base); !r.truncated ==> r.mergeBaseIncluded
  {
    BaseFlagExactly(head, default, limit, base);
  }

  // ----- Where the flags are exact -----------------------------------------------------------------------------

  /** No hash twice, and the parts above the base have nothing in common with the other history. */
  ghost predicate Apart(head: seq<Commit>, h: nat, default: seq<Commit>, d: nat)
    requires h < |head| && d < |default|
  {
    && Consistent(head, default)
    && DistinctHashes(head) && DistinctHashes(default)
    && (forall i :: 0 <= i < h ==> !HasHash(default, head[i].hash))
    && (forall i :: 0 <= i < d ==> !HasHash(head, default[i].hash))
  }

  /** A chain without merges: each commit above the base has the next one for its only parent. */
  ghost predicate LineTo(commits: seq<Commit>, n: nat, base: Sha) {
    ChainTo(commits, n, base) && forall i :: 0 <= i < n ==> commits[i].parents == [commits[i + 1].hash]
  }

  lemma ParentsOfStranger(commits: seq<Commit>, hash: Sha)
    requires !HasHash(commits, hash)
    ensures ParentsOf(commits, hash) == []
  {
    if commits != [] {
      var front := commits[..|commits| - 1];
      assert forall i :: 0 <= i < |front| ==> front[i] == commits[i];
      ParentsOfStranger(front, hash);
    }
  }

  /** One commit missing from a line and the base can no longer be reached. */
  lemma GapDisconnects(commits: seq<Commit>, line: seq<Commit>, n: nat, base: Sha, gap: nat)
    requires DistinctHashes(commits) && LineTo(line, n, base) && gap < n && !HasHash(commits, line[gap].hash)
    requires forall c, i :: c in commits && 0 <= i < n && c.hash == line[i].hash ==> c == line[i]
    ensures !ReachesBase(commits, TipOf(line), base)
  {
    var closed := set i | 0 <= i <= gap :: line[i].hash;
    forall hash, parent | hash in closed && parent in ParentsOf(commits, hash) ensures parent in closed {
      var i :| 0 <= i <= gap && line[i].hash == hash;
      if HasHash(commits, hash) {
        var k :| 0 <= k < |commits| && commits[k].hash == hash;
        ParentsOfMember(commits, commits[k]);
        assert line[i + 1].hash in closed;
      } else {
        ParentsOfStranger(commits, hash);
      }
    }
    forall i | 0 <= i <= gap ensures line[i].hash != base {
      assert line[..n][i] == line[i];
    }
    assert base !in closed;
    assert line[0].hash in closed;
    forall p | Path(commits, p, line[0].hash, base) ensures false {
      ClosedSetHoldsPaths(commits, closed, p, line[0].hash, base);
    }
  }

  /** A slice connects the tip of a line exactly if it holds the whole line above the base. */
  lemma LineConnectsExactly(commits: seq<Commit>, line: seq<Commit>, n: nat, base: Sha)
    requires DistinctHashes(commits) && LineTo(line, n, base)
    requires forall c, i :: c in commits && 0 <= i < n && c.hash == line[i].hash ==> c == line[i]
    ensures ReachesBase(commits, TipOf(line), base) <==> forall i :: 0 <= i < n ==> line[i] in commits
  {
    if forall i :: 0 <= i < n ==> line[i] in commits {
      ChainConnects(commits, line, n, base);
    } else {
      var gap :| 0 <= gap < n && line[gap] !in commits;
      assert !HasHash(commits, line[gap].hash);
      GapDisconnects(commits, line, n, base, gap);
    }
  }

  lemma {:induction false} UniqueOfDistinct(commits: seq<Commit>)
    requires DistinctHashes(commits)
    ensures Unique(commits) == commits
    decreases |commits|
  {
    if commits != [] {
      var front := commits[..|commits| - 1];
      UniqueOfDistinct(front);
      assert forall i :: 0 <= i < |front| ==> front[i] == commits[i];
      assert !HasHash(front, commits[|commits| - 1].hash);
      assert commits == front + [commits[|commits| - 1]];
    }
  }

  /** The allotted tips and the base lead the list, each once. */
  lemma ApartLeads(head: seq<Commit>, h: nat, hb: nat, default: seq<Commit>, d: nat, db: nat, rest: seq<Commit>)
    requires h < |head| && d < |default| && hb <= h && db <= d && Apart(head, h, default, d) 
    ensures head[..hb] + default[..db] + [head[h]] <= Unique(head[..hb] + default[..db] + [head[h]] + rest)
  {
    var lead := head[..hb] + default[..db] + [head[h]];
    forall i, j | 0 <= i < j < |lead| ensures lead[i].hash != lead[j].hash {
      if i < hb {
        assert lead[i] == head[i];
        if hb <= j < hb + db {
          assert lead[j] == default[j - hb];
        }
      } else {
        assert lead[i] == default[i - hb];
        if j == hb + db {
          assert lead[j] == head[h];
        } else {
          assert lead[j] == default[j - hb];
        }
      }
    }
    UniqueOfDistinct(lead);
    UniquePrefix(lead, rest);
  }

  /** A commit above the base that gets no place is nowhere else on the list. */
  lemma UnallottedIsMissing(side: seq<Commit>, n: nat, budget: nat, other: seq<Commit>, m: nat, otherBudget: nat)
    requires budget < n < |side| && DistinctHashes(side) && !HasHash(other, side[budget].hash)
    ensures !Eligible(side, n, budget, side[budget]) && !Eligible(other, m, otherBudget, side[budget])
  {
  }

  lemma UnallottedIsNotKept(head: seq<Commit>, h: nat, default: seq<Commit>, d: nat, places: nat)
    requires h < |head| && d < |default| && Apart(head, h, default, d)
    requires AllocateBudget(h, d, Max(0, places - 1)) != (h, d)
    ensures exists c :: c in head[..h] + default[..d] && c !in Kept(head, h, default, d, places)
  {
    AllocationIsValid(h, d, Max(0, places - 1));
    var (hb, db) := AllocateBudget(h, d, Max(0, places - 1));
    var c;
    if hb < h {
      c := head[..h][hb];
      UnallottedIsMissing(head, h, hb, default, d, db);
    } else {
      c := default[..d][db];
      UnallottedIsMissing(default, d, db, head, h, hb);
    }
    if c in Candidates(head, h, default, d, places) {
      CandidatesAreEligible(head, h, default, d, places, c);
    }
    assert c in head[..h] + default[..d];
  }

  /** Everything above the base is kept exactly if the budget covers both sides and the places do too. */
  lemma WholePartsKeptExactly(head: seq<Commit>, h: nat, default: seq<Commit>, d: nat, places: nat)
    requires h < |head| && d < |default| && places >= 1 && Apart(head, h, default, d)
    ensures (forall c :: c in head[..h] + default[..d] ==> c in Kept(head, h, default, d, places))
            <==> h + d <= places && (h + d < places || (h <= 1 && d <= 1))
  {
    var kept := Kept(head, h, default, d, places);
    var above := head[..h] + default[..d];
    BudgetCoversBoth(h, d, places);
    if AllocateBudget(h, d, Max(0, places - 1)) != (h, d) {
      UnallottedIsNotKept(head, h, default, d, places);
    } else {
      var hb, db, rest := AllottedCandidates(head, h, default, d, places);
      ApartLeads(head, h, h, default, d, d, rest);
      var all := Unique(Candidates(head, h, default, d, places));
      assert forall i :: 0 <= i < h + d ==> all[i] == (above + [head[h]])[i] == above[i];
      if h + d <= places {
        assert forall i :: 0 <= i < h + d ==> kept[i] == above[i];
      } else {
        assert above[h + d - 1] in above && above[h + d - 1] == all[h + d - 1];
      }
    }
  }

  /**
   Both flags of the slice of two lines that part at the base. A slice counts as whole exactly if everything
   above the base is in it; that needs a place to spare for the base, except that one or two lone tips
   fill all places, and then the slice counts as whole although the base is cut.
   */
  lemma FlagsExactly(head: seq<Commit>, h: nat, default: seq<Commit>, d: nat, limit: Option<real>, base: Sha)
    requires LineTo(head, h, base) && LineTo(default, d, base) && base.text != "" && Apart(head, h, default, d)
    ensures var r := SliceOf(head, default, limit, Some(base)); var places := NormalizeLimit(limit);
            && (!r.truncated <==> h + d < places || (h + d == places && h <= 1 && d <= 1))
            && (r.mergeBaseIncluded <==> Sides(h, d) < places)
  {
    hide Kept, ReachesBase, HasHash, LineTo, Apart;
    var r, places := SliceOf(head, default, limit, Some(base)), NormalizeLimit(limit);
    SliceIsBounded(head, default, limit, Some(base));
    LineEndsAtBase(head, h, base);
    LineEndsAtBase(default, d, base);
    BaseIsShownExactly(head, h, default, d, places, base);
    if Sides(h, d) == 2 {
      TipsDiffer(head, h, default, d);
    }
    WholePartsKeptExactly(head, h, default, d, places);
    LinesConnectExactly(r.commits, head, h, default, d, base);
  }

  lemma LineEndsAtBase(line: seq<Commit>, n: nat, base: Sha)
    requires LineTo(line, n, base)
    ensures IndexOfHash(line, base) == Some(n)
  {
  }

  /** A slice of two lines connects both tips exactly if it holds everything above the base. */
  lemma LinesConnectExactly(commits: seq<Commit>, head: seq<Commit>, h: nat, default: seq<Commit>, d: nat, base: Sha)
    requires LineTo(head, h, base) && LineTo(default, d, base) && Apart(head, h, default, d)
    requires DistinctHashes(commits) && forall c :: c in commits ==> c in head || c in default
    ensures ReachesBase(commits, TipOf(head), base) && ReachesBase(commits, TipOf(default), base)
        <==> forall c :: c in head[..h] + default[..d] ==> c in commits
  {
    LineConnectsExactly(commits, head, h, base);
    LineConnectsExactly(commits, default, d, base);
    AllOfBoth(commits, head, h, default, d);
  }

  lemma TipsDiffer(head: seq<Commit>, h: nat, default: seq<Commit>, d: nat)
    requires h < |head| && d < |default| && Apart(head, h, default, d) && Sides(h, d) == 2
    ensures head[0].hash != default[0].hash
  {
    assert default[0].hash == default[0].hash;
  }

  lemma AllOfBoth(commits: seq<Commit>, head: seq<Commit>, h: nat, default: seq<Commit>, d: nat)
    requires h <= |head| && d <= |default|
    ensures (forall c :: c in head[..h] + default[..d] ==> c in commits)
        <==> (forall i :: 0 <= i < h ==> head[i] in commits) && (forall i :: 0 <= i < d ==> default[i] in commits)
  {
    var above := head[..h] + default[..d];
    assert forall i :: 0 <= i < h ==> above[i] == head[i];
    assert forall i :: 0 <= i < d ==> above[h + i] == default[i];
    forall i | 0 <= i < h && forall c :: c in above ==> c in commits ensures head[i] in commits {
      assert above[i] in above;
    }
    forall i | 0 <= i < d && forall c :: c in above ==> c in commits ensures default[i] in commits {
      assert above[h + i] in above;
    }
  }
}
