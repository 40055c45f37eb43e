/** Signed connector commands. */
module CommandReplay {
  import opened CodeUnits
  import opened Common
  import opened Texts

  // How a request is made, the checks it must pass, and the table that keeps a grant from being used twice.

  const DEFAULT_TTL_MS := 30_000
  const MAXIMUM_TTL_MS := 60_000
  const CLOCK_SKEW_MS := 5_000
  const MAXIMUM_ENTRIES := 1_024

  datatype Operation = Restart | Update

  datatype Plan = Plan(machineId: Text, operationId: Text, operation: Operation, target: Text,
                       previousRuntime: Text, release: Text)

  /** Times are in milliseconds. */
  datatype Grant = Grant(userId: Text, machineId: Text, generation: int, operation: Operation, operationId: Text,
                         target: Text, previousRuntimeSha256: Text, planSha256: Text,
                         issuedAt: int, expiresAt: int, nonce: Text, signature: Text)

  datatype Request = Request(grant: Grant, plan: Plan)

  datatype Options = Options(expectedGeneration: int, expectedMachineId: Text, expectedTarget: Text)

  datatype Error =
    | BindingMismatch | Capacity | Expired | FutureIssued | InvalidRelease | InvalidSchema
    | InvalidSignature | InvalidTtl | Replayed | StaleGeneration

  datatype Result<T> = Ok(value: T) | Failed(error: Error)

  /** The cryptography and the release check, which are not part of this model. */
  datatype Crypto = Crypto(planDigest: Plan -> Text, runtimeDigest: Text -> Text, sign: Grant -> Text,
                           valid: Grant -> bool, releaseFine: (Plan, int) -> bool, shaped: Request -> bool)

  /** What is signed can be verified. */
  ghost predicate Verifies(c: Crypto) {
    forall g: Grant :: c.valid(g.(signature := c.sign(g.(signature := []))))
  }

  // ----- Names ---------------------------------------------------------------------------------------------

  predicate Alphanumeric(u: CodeUnit) {
    '0' as int <= u <= '9' as int || 'A' as int <= u <= 'Z' as int || 'a' as int <= u <= 'z' as int
  }

  predicate Named(text: Text, extra: set<CodeUnit>) {
    && 1 <= |text| <= 256
    && Alphanumeric(text[0])
    && forall i :: 0 <= i < |text| ==> Alphanumeric(text[i]) || text[i] in extra
  }

  predicate IsIdentifier(text: Text) {
    Named(text, {'.' as int, '_' as int, ':' as int, '@' as int, '+' as int, '-' as int})
  }

  predicate IsMachineId(text: Text) {
    Named(text, {'.' as int, '_' as int, ':' as int, '-' as int})
  }

  ghost predicate OneOf(u: CodeUnit, chars: set<char>) {
    exists c :: c in chars && c as int == u
  }

  /** A letter or digit, and up to 255 letters, digits and others from a list. */
  ghost predicate IsName(text: Text, others: set<char>) {
    && 1 <= |text| <= 256 && OneOf(text[0], DIGITS + CAPITAL_LETTERS + SMALL_LETTERS)
    && forall u :: u in text ==> OneOf(u, DIGITS + CAPITAL_LETTERS + SMALL_LETTERS + others)
  }

  lemma AlphanumericExactly(u: CodeUnit)
    ensures Alphanumeric(u) <==> OneOf(u, DIGITS + CAPITAL_LETTERS + SMALL_LETTERS)
  {
    hide DIGITS, CAPITAL_LETTERS, SMALL_LETTERS;
    if Alphanumeric(u) {
      CharactersExactly(u as char);
      assert u as char in DIGITS + CAPITAL_LETTERS + SMALL_LETTERS && u as char as int == u;
    }
    if c :| c in DIGITS + CAPITAL_LETTERS + SMALL_LETTERS && c as int == u {
      CharactersExactly(c);
    }
  }

  lemma OneOfUnion(u: CodeUnit, a: set<char>, b: set<char>)
    ensures OneOf(u, a + b) <==> OneOf(u, a) || OneOf(u, b)
  {
    if c :| c in a && c as int == u {
      assert c in a + b;
    }
    if c :| c in b && c as int == u {
      assert c in a + b;
    }
  }

  lemma NamedExactly(text: Text, extra: set<CodeUnit>, others: set<char>)
    requires forall u: CodeUnit :: u in extra <==> OneOf(u, others)
    ensures Named(text, extra) <==> IsName(text, others)
  {
    forall u: CodeUnit
      ensures Alphanumeric(u) <==> OneOf(u, DIGITS + CAPITAL_LETTERS + SMALL_LETTERS)
      ensures OneOf(u, DIGITS + CAPITAL_LETTERS + SMALL_LETTERS + others) <==> Alphanumeric(u) || u in extra
    {
      AlphanumericExactly(u);
      OneOfUnion(u, DIGITS + CAPITAL_LETTERS + SMALL_LETTERS, others);
    }
    hide Alphanumeric, OneOf;
    forall i | 0 <= i < |text| ensures text[i] in text {
    }
  }

  /** Identifiers and machine identifiers, by the characters that they may have. */
  lemma IdentifiersExactly(text: Text)
    ensures IsIdentifier(text) <==> IsName(text, {'.', '_', ':', '@', '+', '-'})
    ensures IsMachineId(text) <==> IsName(text, {'.', '_', ':', '-'})
  {
    hide IsName, Named;
    PunctuationExactly();
    NamedExactly(text, {'.' as int, '_' as int, ':' as int, '@' as int, '+' as int, '-' as int},
                 {'.', '_', ':', '@', '+', '-'});
    NamedExactly(text, {'.' as int, '_' as int, ':' as int, '-' as int}, {'.', '_', ':', '-'});
  }

  lemma PunctuationExactly()
    ensures forall u: CodeUnit :: u in {'.' as int, '_' as int, ':' as int, '@' as int, '+' as int, '-' as int}
              <==> OneOf(u, {'.', '_', ':', '@', '+', '-'})
    ensures forall u: CodeUnit :: u in {'.' as int, '_' as int, ':' as int, '-' as int}
              <==> OneOf(u, {'.', '_', ':', '-'})
  {
    forall u: CodeUnit | u in {'.' as int, '_' as int, ':' as int, '@' as int, '+' as int, '-' as int}
      ensures OneOf(u, {'.', '_', ':', '@', '+', '-'})
    {
      assert u as char in {'.', '_', ':', '@', '+', '-'} && u as char as int == u;
    }
    forall u: CodeUnit | u in {'.' as int, '_' as int, ':' as int, '-' as int} ensures OneOf(u, {'.', '_', ':', '-'}) {
      assert u as char in {'.', '_', ':', '-'} && u as char as int == u;
    }
  }

  predicate IsPlan(plan: Plan) {
    IsMachineId(plan.machineId) && IsIdentifier(plan.operationId)
  }

  predicate IsGrant(grant: Grant) {
    && IsMachineId(grant.machineId) && IsIdentifier(grant.userId)
    && IsIdentifier(grant.operationId) && IsIdentifier(grant.nonce)
    && grant.generation > 0
  }

  predicate IsRequest(c: Crypto, request: Request) {
    IsGrant(request.grant) && IsPlan(request.plan) && c.shaped(request)
  }

  // ----- The replay table ------------------------------------------------------------------------------------

  /** The table is a map from joined keys; as `JoinedKeyTellsApart` shows, it may as well be one from their parts. */
  datatype Key = Key(machineId: Text, generation: int, operationId: Text)

  function KeyOf(grant: Grant): Key {
    Key(grant.machineId, grant.generation, grant.operationId)
  }

  /** The three parts, joined by NUL. */
  function JoinedKey(grant: Grant): Text {
    grant.machineId + [0] + DecimalTo(grant.generation, [0] + grant.operationId)
  }

  function BeforeNul(t: Text): nat {
    if t == [] || t[0] == 0 then 0 else 1 + BeforeNul(t[1..])
  }

  lemma {:induction false} BeforeNulIs(a: Text, r: Text)
    requires 0 !in a
    ensures BeforeNul(a + [0] + r) == |a|
  {
    if a != [] {
      assert (a + [0] + r)[1..] == a[1..] + [0] + r;
      BeforeNulIs(a[1..], r);
    }
  }

  lemma CutAtNul(a: Text, r: Text, b: Text, s: Text)
    requires 0 !in a && 0 !in b && a + [0] + r == b + [0] + s
    ensures a == b && r == s
  {
    var t, u := a + [0] + r, b + [0] + s;
    BeforeNulIs(a, r);
    BeforeNulIs(b, s);
    assert a == t[..|a|] && b == u[..|b|];
    assert r == t[|a| + 1..] && s == u[|b| + 1..];
  }

  lemma {:induction false} DigitsAreNotNul(n: nat)
    ensures 0 !in Digits(n)
  {
    if n >= 10 {
      DigitsAreNotNul(n / 10);
    }
  }

  /** Joined names tell the machine, the generation and the operation apart. */
  lemma JoinedKeyTellsApart(g: Grant, h: Grant)
    requires IsGrant(g) && IsGrant(h)
    ensures JoinedKey(g) == JoinedKey(h) <==> KeyOf(g) == KeyOf(h)
  {
    if JoinedKey(g) == JoinedKey(h) {
      var m, n := Digits(g.generation), Digits(h.generation);
      CutAtNul(g.machineId, m + ([0] + g.operationId), h.machineId, n + ([0] + h.operationId));
      assert m + ([0] + g.operationId) == m + [0] + g.operationId;
      assert n + ([0] + h.operationId) == n + [0] + h.operationId;
      DigitsAreNotNul(g.generation);
      DigitsAreNotNul(h.generation);
      CutAtNul(m, g.operationId, n, h.operationId);
      DigitsInjective(g.generation, h.generation);
    }
  }

  type Table = map<Key, int>

  function ExpiryOf(grant: Grant): int {
    grant.expiresAt + CLOCK_SKEW_MS
  }

  /** The entries that have not expired. */
  function Purged(used: Table, now: int): Table {
    map k | k in used && used[k] >= now :: used[k]
  }

  /** The table after a grant has been presented, and why it was not accepted. */
  function Present(used: Table, maximumEntries: int, grant: Grant, now: int): (Table, Option<Error>) {
    var live, key := Purged(used, now), KeyOf(grant);
    if key in live then (live, Some(Replayed))
    else if |live| >= maximumEntries then (live, Some(Capacity))
    else (live[key := ExpiryOf(grant)], None)
  }

  class ReplayProtection {
    var used: Table
    const maximumEntries: int

    constructor (maximumEntries: int := MAXIMUM_ENTRIES)
      ensures used == map[] && this.maximumEntries == maximumEntries
    {
      used := map[];
      this.maximumEntries := maximumEntries;
    }

    /** Removes every entry that has expired, and no other. */
    method Purge(now: int)
      modifies this
      ensures used == Purged(old(used), now)
    {
      var pending := used.Keys;
      ghost var before := used;
      while pending != {}
        invariant pending <= used.Keys <= before.Keys
        invariant forall k :: k in before && (k in pending || before[k] >= now) ==> k in used
        invariant forall k :: k in used ==> used[k] == before[k] && (k in pending || used[k] >= now)
        decreases |pending|
      {
        var key :| key in pending;
        pending := pending - {key};
        if used[key] < now {
          used := used - {key};
        }
      }
    }

    method Accept(grant: Grant, now: int) returns (refused: Option<Error>)
      modifies this
      ensures (used, refused) == Present(old(used), maximumEntries, grant, now)
      ensures var key, counting := Key(grant.machineId, grant.generation, grant.operationId),
                                   map k | k in old(used) && now <= old(used)[k] :: old(used)[k];
        && (refused == Some(Replayed) <==> key in counting)
        && (refused == Some(Capacity) <==> key !in counting && |counting| >= maximumEntries)
        && (refused.Some? ==> used == counting)
        && (refused == None <==> key !in counting && |counting| < maximumEntries)
        && (refused == None ==> used == counting[key := grant.expiresAt + 5_000])
    {
      assert (map k | k in used && now <= used[k] :: used[k]) == Purged(used, now);
      Purge(now);
      var key := KeyOf(grant);
      if key in used {
        return Some(Replayed);
      }
      if |used| >= maximumEntries {
        return Some(Capacity);
      }
      used := used[key := ExpiryOf(grant)];
      refused := None;
    }
  }

  // ----- Requests --------------------------------------------------------------------------------------------

  function Create(c: Crypto, generation: int, plan: Plan, userId: Text, nonce: Text, now: int,
                  ttl: Option<int>): Result<Request> {
    var ttlMs := if ttl.Some? then ttl.value else DEFAULT_TTL_MS;
    if !IsPlan(plan) || !IsIdentifier(userId) || generation <= 0 then Failed(InvalidSchema)
    else if ttlMs < 1 || ttlMs > MAXIMUM_TTL_MS then Failed(InvalidTtl)
    else
      var unsigned := Grant(userId, plan.machineId, generation, plan.operation, plan.operationId, plan.target,
                            c.runtimeDigest(plan.previousRuntime), c.planDigest(plan), now, now + ttlMs, nonce, []);
      var request := Request(unsigned.(signature := c.sign(unsigned)), plan);
      if IsRequest(c, request) then Ok(request) else Failed(InvalidSchema)
  }

  /** Everything that is checked before the replay table is asked. */
  function Check(c: Crypto, request: Request, options: Options, now: int): Option<Error> {
    var grant, plan := request.grant, request.plan;
    if !IsRequest(c, request) then Some(InvalidSchema)
    else if !c.valid(grant) then Some(InvalidSignature)
    else if grant.issuedAt > now + CLOCK_SKEW_MS then Some(FutureIssued)
    else if grant.expiresAt < now - CLOCK_SKEW_MS then Some(Expired)
    else if grant.expiresAt <= grant.issuedAt || grant.expiresAt - grant.issuedAt > MAXIMUM_TTL_MS then Some(InvalidTtl)
    else if grant.generation != options.expectedGeneration then Some(StaleGeneration)
    else if grant.machineId != options.expectedMachineId || plan.machineId != options.expectedMachineId
      || grant.operation != plan.operation || grant.operationId != plan.operationId
      || grant.target != plan.target || plan.target != options.expectedTarget
      || grant.planSha256 != c.planDigest(plan)
      || grant.previousRuntimeSha256 != c.runtimeDigest(plan.previousRuntime) then Some(BindingMismatch)
    else if plan.operation.Update? && !c.releaseFine(plan, now) then Some(InvalidRelease)
    else None
  }

  // ----- What is asked of a request --------------------------------------------------------------------------

  /** Names of the right form, a positive generation, and whatever else the schema asks for. */
  ghost predicate WellFormed(c: Crypto, request: Request) {
    var grant, plan := request.grant, request.plan;
    && (forall id :: id in {grant.machineId, plan.machineId} ==> IsMachineId(id))
    && (forall id :: id in {grant.userId, grant.operationId, plan.operationId, grant.nonce} ==> IsIdentifier(id))
    && grant.generation >= 1 && c.shaped(request)
  }

  /** The grant says what the plan and the options say, and carries the digests of the plan and of its runtime. */
  ghost predicate Bound(c: Crypto, request: Request, options: Options) {
    var plan := request.plan;
    && plan == plan.(machineId := options.expectedMachineId, target := options.expectedTarget)
    && request.grant == request.grant.(
         machineId := options.expectedMachineId, target := options.expectedTarget,
         operation := plan.operation, operationId := plan.operationId,
         planSha256 := c.planDigest(plan), previousRuntimeSha256 := c.runtimeDigest(plan.previousRuntime))
  }

  /** The time is within the skew of a validity of a minute at most. */
  ghost predicate Timely(grant: Grant, now: int) {
    && grant.issuedAt < grant.expiresAt <= grant.issuedAt + MAXIMUM_TTL_MS
    && grant.issuedAt - CLOCK_SKEW_MS <= now <= grant.expiresAt + CLOCK_SKEW_MS
  }

  /** Well-formed, signed, timely, and meant for the generation, the machine and the target that are expected. */
  ghost predicate Genuine(c: Crypto, request: Request, options: Options, now: int) {
    && WellFormed(c, request) && c.valid(request.grant) && Timely(request.grant, now)
    && request.grant.generation == options.expectedGeneration && Bound(c, request, options)
    && (request.plan.operation == Update ==> c.releaseFine(request.plan, now))
  }

  /** One thing that is asked of a request, and the error of a request that does not have it. */
  datatype Demand = Demand(met: bool, error: Error)

  /** All that is asked, in order. */
  ghost function Demands(c: Crypto, request: Request, options: Options, now: int): seq<Demand> {
    var grant := request.grant;
    [ Demand(WellFormed(c, request), InvalidSchema),
      Demand(c.valid(grant), InvalidSignature),
      Demand(now >= grant.issuedAt - CLOCK_SKEW_MS, FutureIssued),
      Demand(now <= grant.expiresAt + CLOCK_SKEW_MS, Expired),
      Demand(1 <= grant.expiresAt - grant.issuedAt <= MAXIMUM_TTL_MS, InvalidTtl),
      Demand(grant.generation == options.expectedGeneration, StaleGeneration),
      Demand(Bound(c, request, options), BindingMismatch),
      Demand(request.plan.operation == Update ==> c.releaseFine(request.plan, now), InvalidRelease) ]
  }

  lemma WellFormedExactly(c: Crypto, request: Request)
    ensures WellFormed(c, request) <==> IsRequest(c, request)
  {
    var grant, plan := request.grant, request.plan;
    hide IsMachineId, IsIdentifier;
    assert grant.machineId in {grant.machineId, plan.machineId} && plan.machineId in {grant.machineId, plan.machineId};
    var ids := {grant.userId, grant.operationId, plan.operationId, grant.nonce};
    assert grant.userId in ids && grant.operationId in ids && plan.operationId in ids && grant.nonce in ids;
  }

  /** The first demand that is not met gives the error; a request that meets them all is genuine, and passes. */
  lemma RefusedForTheFirstUnmet(c: Crypto, request: Request, options: Options, now: int)
    ensures Check(c, request, options, now) == None <==> Genuine(c, request, options, now)
    ensures var demands := Demands(c, request, options, now);
      forall i :: 0 <= i < |demands| && !demands[i].met && (forall j :: 0 <= j < i ==> demands[j].met) ==>
        Check(c, request, options, now) == Some(demands[i].error)
  {
    WellFormedExactly(c, request);
    hide WellFormed, IsRequest;
    var demands := Demands(c, request, options, now);
    forall i | 0 <= i < |demands| && !demands[i].met && forall j :: 0 <= j < i ==> demands[j].met
      ensures Check(c, request, options, now) == Some(demands[i].error)
    {
      assert 0 < i ==> demands[0].met;
      assert 1 < i ==> demands[1].met;
      assert 2 < i ==> demands[2].met;
      assert 3 < i ==> demands[3].met;
      assert 4 < i ==> demands[4].met;
      assert 5 < i ==> demands[5].met;
      assert 6 < i ==> demands[6].met;
    }
  }

  // ----- Requests that were created --------------------------------------------------------------------------

  function TtlOf(ttl: Option<int>): int {
    if ttl == None then DEFAULT_TTL_MS else ttl.value
  }

  /** Which requests are created, what they say, and which of the two errors the others get. */
  lemma CreatesExactly(c: Crypto, generation: int, plan: Plan, userId: Text, nonce: Text, now: int, ttl: Option<int>)
    ensures var r := Create(c, generation, plan, userId, nonce, now, ttl);
      && (r.Ok? ==> IsRequest(c, r.value) && r.value.plan == plan
                    && Bound(c, r.value, Options(generation, plan.machineId, plan.target))
                    && r.value.grant.generation == generation && r.value.grant.userId == userId
                    && r.value.grant.nonce == nonce && r.value.grant.issuedAt == now
                    && 1 <= r.value.grant.expiresAt - now == TtlOf(ttl) <= MAXIMUM_TTL_MS
                    && r.value.grant.signature == c.sign(r.value.grant.(signature := [])))
      && (r == Failed(InvalidTtl) <==> IsPlan(plan) && IsIdentifier(userId) && generation > 0
                                       && !(1 <= TtlOf(ttl) <= MAXIMUM_TTL_MS))
      && (r.Failed? ==> r.error in {InvalidTtl, InvalidSchema})
    ensures forall request ::
      && IsRequest(c, request) && request.plan == plan
      && Bound(c, request, Options(generation, plan.machineId, plan.target))
      && request.grant.generation == generation && request.grant.userId == userId && request.grant.nonce == nonce
      && request.grant.issuedAt == now && 1 <= request.grant.expiresAt - now == TtlOf(ttl) <= MAXIMUM_TTL_MS
      && request.grant.signature == c.sign(request.grant.(signature := []))
      ==> Create(c, generation, plan, userId, nonce, now, ttl) == Ok(request)
  {
    forall request |
      && IsRequest(c, request) && request.plan == plan
      && Bound(c, request, Options(generation, plan.machineId, plan.target))
      && request.grant.generation == generation && request.grant.userId == userId && request.grant.nonce == nonce
      && request.grant.issuedAt == now && 1 <= request.grant.expiresAt - now == TtlOf(ttl) <= MAXIMUM_TTL_MS
      && request.grant.signature == c.sign(request.grant.(signature := []))
      ensures Create(c, generation, plan, userId, nonce, now, ttl) == Ok(request)
    {
      var unsigned := Grant(userId, plan.machineId, generation, plan.operation, plan.operationId, plan.target,
                            c.runtimeDigest(plan.previousRuntime), c.planDigest(plan), now, now + TtlOf(ttl), nonce,
                            []);
      assert request.grant.(signature := []) == unsigned;
      assert request.grant == unsigned.(signature := c.sign(unsigned));
    }
  }

  /**
   A request passes the checks exactly where it was made for, from the skew before it was issued to the skew
   after it expires.
   */
  lemma CreatedPassesExactly(c: Crypto, generation: int, plan: Plan, userId: Text, nonce: Text, issued: int,
                             ttl: Option<int>,
                             options: Options, now: int)
    requires Verifies(c) && Create(c, generation, plan, userId, nonce, issued, ttl).Ok?
    ensures var request := Create(c, generation, plan, userId, nonce, issued, ttl).value;
            Check(c, request, options, now) == None <==>
              && options == Options(generation, plan.machineId, plan.target)
              && issued - CLOCK_SKEW_MS <= now <= ExpiryOf(request.grant)
              && (plan.operation.Update? ==> c.releaseFine(plan, now))
  {
    var g := Create(c, generation, plan, userId, nonce, issued, ttl).value.grant;
    assert g == g.(signature := c.sign(g.(signature := [])));
  }

  /** What a request is created from. */
  datatype Making = Making(generation: int, plan: Plan, userId: Text, nonce: Text, at: int, ttl: Option<int>)

  function Made(c: Crypto, m: Making): Result<Request> {
    Create(c, m.generation, m.plan, m.userId, m.nonce, m.at, m.ttl)
  }

  /** The signatures that are valid are those of the requests that were created: none of them is forged. */
  ghost predicate SignedExactly(c: Crypto, made: set<Making>) {
    forall g :: c.valid(g) <==> exists m :: m in made && Made(c, m).Ok? && Made(c, m).value.grant == g
  }

  /** No two plans have the same digest. */
  ghost predicate TellsPlansApart(c: Crypto) {
    forall p, q :: c.planDigest(p) == c.planDigest(q) ==> p == q
  }

  /** The making is one for these options, and the time is within the skew of the validity it asked for. */
  ghost predicate MadeFor(c: Crypto, m: Making, options: Options, now: int) {
    && options == Options(m.generation, m.plan.machineId, m.plan.target)
    && m.at - CLOCK_SKEW_MS <= now <= m.at + TtlOf(m.ttl) + CLOCK_SKEW_MS
    && (m.plan.operation == Update ==> c.releaseFine(m.plan, now))
  }

  /** The requests that pass are the ones that were created, at the place and in the time that they were created for. */
  lemma PassedWereCreated(c: Crypto, made: set<Making>, request: Request, options: Options, now: int)
    requires SignedExactly(c, made) && TellsPlansApart(c)
    ensures Check(c, request, options, now) == None <==>
      exists m :: m in made && Made(c, m) == Ok(request) && MadeFor(c, m, options, now)
                  && request.grant.userId == m.userId && request.grant.nonce == m.nonce
  {
    RefusedForTheFirstUnmet(c, request, options, now);
    if Check(c, request, options, now) == None {
      var m :| m in made && Made(c, m).Ok? && Made(c, m).value.grant == request.grant;
      CreatesExactly(c, m.generation, m.plan, m.userId, m.nonce, m.at, m.ttl);
      assert c.planDigest(m.plan) == c.planDigest(request.plan);
      assert m.plan == request.plan;
      assert Made(c, m) == Ok(request) && MadeFor(c, m, options, now);
    }
    if m :| m in made && Made(c, m) == Ok(request) && MadeFor(c, m, options, now) {
      CreatesExactly(c, m.generation, m.plan, m.userId, m.nonce, m.at, m.ttl);
      assert c.valid(request.grant);
    }
  }

  // ----- Whole runs ------------------------------------------------------------------------------------------

  datatype Call = Call(request: Request, options: Options, now: int)

  type Checks = Call -> Option<Error>

  function CheckOf(c: Crypto): Checks {
    (call: Call) => Check(c, call.request, call.options, call.now)
  }

  /** Checks that refuse what has expired. */
  ghost predicate Careful(check: Checks) {
    forall call :: check(call).None? ==> call.now <= ExpiryOf(call.request.grant)
  }

  lemma ChecksAreCareful(c: Crypto)
    ensures Careful(CheckOf(c))
  {
  }

  datatype Use = Use(grant: Grant, at: int)

  function Submit(check: Checks, maximumEntries: int, used: Table, call: Call): (Table, Option<Error>) {
    match check(call)
    case Some(error) => (used, Some(error))
    case None => Present(used, maximumEntries, call.request.grant, call.now)
  }

  /** No grant of the same machine, generation and operation still counts at this time, and there is room. */
  ghost predicate Enters(used: Table, maximumEntries: int, call: Call) {
    var counting := set k | k in used && call.now <= used[k];
    var grant := call.request.grant;
    Key(grant.machineId, grant.generation, grant.operationId) !in counting && |counting| < maximumEntries
  }

  lemma PresentedExactly(used: Table, maximumEntries: int, call: Call)
    ensures Present(used, maximumEntries, call.request.grant, call.now).1 == None <==>
        Enters(used, maximumEntries, call)
  {
    var live := Purged(used, call.now);
    assert live.Keys == set k | k in used && call.now <= used[k];
    assert |live| == |live.Keys|;
  }

  /** Without a replay table only the checks decide. */
  method VerifyRequest(c: Crypto, call: Call, protection: ReplayProtection?) returns (r: Result<Plan>)
    modifies protection
    ensures protection != null ==>
      var (table, refused) := Submit(CheckOf(c), protection.maximumEntries, old(protection.used), call);
      protection.used == table && r == Answer(refused, call)
    ensures protection == null ==> r == Answer(CheckOf(c)(call), call)
    ensures r.Ok? <==> Genuine(c, call.request, call.options, call.now)
                       && (protection != null ==> Enters(old(protection.used), protection.maximumEntries, call))
    ensures r.Ok? ==> r.value == call.request.plan
  {
    RefusedForTheFirstUnmet(c, call.request, call.options, call.now);
    var problem := Check(c, call.request, call.options, call.now);
    if problem.Some? {
      return Failed(problem.value);
    }
    if protection != null {
      PresentedExactly(protection.used, protection.maximumEntries, call);
      var refused := protection.Accept(call.request.grant, call.now);
      if refused.Some? {
        return Failed(refused.value);
      }
    }
    r := Ok(call.request.plan);
  }

  function Answer(refused: Option<Error>, call: Call): Result<Plan> {
    match refused case Some(error) => Failed(error) case None => Ok(call.request.plan)
  }

  function TableAfter(check: Checks, maximumEntries: int, calls: seq<Call>): Table {
    if calls == [] then map[]
    else Submit(check, maximumEntries, TableAfter(check, maximumEntries, calls[..|calls| - 1]), calls[|calls| - 1]).0
  }

  /** The grants that were accepted, and when. */
  function History(check: Checks, maximumEntries: int, calls: seq<Call>): seq<Use> {
    if calls == [] then []
    else
      var front, last := calls[..|calls| - 1], calls[|calls| - 1];
      var refused := Submit(check, maximumEntries, TableAfter(check, maximumEntries, front), last).1;
      Recorded(History(check, maximumEntries, front), refused, last)
  }

  function Recorded(history: seq<Use>, refused: Option<Error>, call: Call): seq<Use> {
    if refused.None? then history + [Use(call.request.grant, call.now)] else history
  }

  /** The clock does not go back, and has not passed `now`. */
  ghost predicate Forward(calls: seq<Call>, now: int) {
    && (forall i, j :: 0 <= i < j < |calls| ==> calls[i].now <= calls[j].now)
    && (forall i :: 0 <= i < |calls| ==> calls[i].now <= now)
  }

  /** The table against the accepted grants. */
  ghost predicate Remembers(used: Table, history: seq<Use>, now: int) {
    && (forall u :: u in history ==> ExpiryOf(u.grant) < now
                                     || (KeyOf(u.grant) in used && used[KeyOf(u.grant)] >= ExpiryOf(u.grant)))
    && (forall k {:trigger Witnessed(history, k, used[k])} :: k in used ==> Witnessed(history, k, used[k]))
  }

  ghost predicate Witnessed(history: seq<Use>, k: Key, expiry: int) {
    exists u :: u in history && KeyOf(u.grant) == k && ExpiryOf(u.grant) == expiry
  }

  /** A key is used again only once every grant that used it before has expired. */
  ghost predicate UsedOnce(history: seq<Use>) {
    forall i, j :: 0 <= i < j < |history| && KeyOf(history[i].grant) == KeyOf(history[j].grant) ==>
      ExpiryOf(history[i].grant) < history[j].at <= ExpiryOf(history[j].grant)
  }

  lemma PurgedRemembers(used: Table, history: seq<Use>, before: int, now: int)
    requires Remembers(used, history, before) && before <= now
    ensures Remembers(Purged(used, now), history, now)
  {
    forall k | k in Purged(used, now) ensures Witnessed(history, k, Purged(used, now)[k]) {
      assert Witnessed(history, k, used[k]);
    }
  }

  lemma AddedRemembers(live: Table, history: seq<Use>, grant: Grant, now: int)
    requires Remembers(live, history, now) && KeyOf(grant) !in live
    ensures Remembers(live[KeyOf(grant) := ExpiryOf(grant)], history + [Use(grant, now)], now)
  {
    var key, u := KeyOf(grant), Use(grant, now);
    var table, history' := live[key := ExpiryOf(grant)], history + [u];
    assert history'[|history|] == u;
    forall k | k in table ensures Witnessed(history', k, table[k]) {
      if k == key {
        assert u in history';
      } else {
        assert Witnessed(history, k, live[k]);
        var v :| v in history && KeyOf(v.grant) == k && ExpiryOf(v.grant) == live[k];
        assert v in history';
      }
    }
  }

  lemma AddedIsUsedOnce(live: Table, history: seq<Use>, grant: Grant, now: int)
    requires Remembers(live, history, now) && UsedOnce(history) && KeyOf(grant) !in live && now <= ExpiryOf(grant)
    ensures UsedOnce(history + [Use(grant, now)])
  {
    forall i | 0 <= i < |history| && KeyOf(history[i].grant) == KeyOf(grant) ensures ExpiryOf(history[i].grant) < now {
      assert history[i] in history;
    }
  }

  lemma {:induction false} RunRemembers(check: Checks, maximumEntries: int, calls: seq<Call>, now: int)
    requires Careful(check) && Forward(calls, now)
    ensures Remembers(TableAfter(check, maximumEntries, calls), History(check, maximumEntries, calls), now)
    ensures UsedOnce(History(check, maximumEntries, calls))
    decreases |calls|
  {
    if calls != [] {
      var front, last := calls[..|calls| - 1], calls[|calls| - 1];
      RunRemembers(check, maximumEntries, front, last.now);
      SubmitRemembers(check, maximumEntries, TableAfter(check, maximumEntries, front),
                      History(check, maximumEntries, front), last);
    }
  }

  lemma {:induction false} TableStaysSmall(check: Checks, maximumEntries: int, calls: seq<Call>)
    ensures |TableAfter(check, maximumEntries, calls)| <= Max(0, maximumEntries)
    decreases |calls|
  {
    if calls != [] {
      var front, last := calls[..|calls| - 1], calls[|calls| - 1];
      TableStaysSmall(check, maximumEntries, front);
      PurgedIsSmaller(TableAfter(check, maximumEntries, front), last.now);
    }
  }

  lemma SubmitRemembers(check: Checks, maximumEntries: int, used: Table, history: seq<Use>, call: Call)
    requires Careful(check) && Remembers(used, history, call.now) && UsedOnce(history)
    ensures var (table, refused) := Submit(check, maximumEntries, used, call);
            Remembers(table, Recorded(history, refused, call), call.now) && UsedOnce(Recorded(history, refused, call))
  {
    var live, grant := Purged(used, call.now), call.request.grant;
    var (table, refused) := Submit(check, maximumEntries, used, call);
    PurgedRemembers(used, history, call.now, call.now);
    if refused.None? {
      assert table == live[KeyOf(grant) := ExpiryOf(grant)];
      AddedRemembers(live, history, grant, call.now);
      AddedIsUsedOnce(live, history, grant, call.now);
    } else {
      assert table == used || table == live;
    }
  }

  lemma PurgedIsSmaller(used: Table, now: int)
    ensures |Purged(used, now)| <= |used|
  {
    SmallerSet(Purged(used, now).Keys, used.Keys);
    assert |Purged(used, now)| == |Purged(used, now).Keys| && |used| == |used.Keys|;
  }

  lemma SmallerSet<T>(a: set<T>, b: set<T>)
    requires a <= b
    ensures |a| <= |b|
  {
    assert b == a + (b - a);
  }

  // ----- What a run guarantees -------------------------------------------------------------------------------

  // These hold for any checks that refuse what has expired, so for `CheckOf` by `ChecksAreCareful`.

  /** The keys of accepted grants that have not expired. */
  ghost function LiveKeys(history: seq<Use>, now: int): set<Key> {
    set u | u in history && ExpiryOf(u.grant) >= now :: KeyOf(u.grant)
  }

  /** At any time the entries that count are those of the accepted grants that have not expired. */
  lemma TableIsHistory(check: Checks, maximumEntries: int, calls: seq<Call>, now: int)
    requires Careful(check) && Forward(calls, now)
    ensures Purged(TableAfter(check, maximumEntries, calls), now).Keys ==
        LiveKeys(History(check, maximumEntries, calls), now)
  {
    RunRemembers(check, maximumEntries, calls, now);
    var used, history := TableAfter(check, maximumEntries, calls), History(check, maximumEntries, calls);
    forall k | k in used ensures Witnessed(history, k, used[k]) {
    }
  }

  /** A request that passes the checks is accepted exactly if its key is not live and there is room. */
  lemma AcceptedExactly(check: Checks, maximumEntries: int, calls: seq<Call>, call: Call)
    requires Careful(check) && Forward(calls, call.now) && check(call) == None
    ensures var live := LiveKeys(History(check, maximumEntries, calls), call.now);
            Submit(check, maximumEntries, TableAfter(check, maximumEntries, calls), call).1 == None
            <==> KeyOf(call.request.grant) !in live && |live| < maximumEntries
  {
    TableIsHistory(check, maximumEntries, calls, call.now);
    var live := Purged(TableAfter(check, maximumEntries, calls), call.now);
    assert |live| == |live.Keys|;
  }

  /** An accepted grant leaves the table only when the checks refuse it, then and ever after. */
  lemma PurgedOnlyWhenExpired(check: Checks, maximumEntries: int, calls: seq<Call>, now: int, u: Use, later: Call)
    requires Careful(check) && Forward(calls, now) && u in History(check, maximumEntries, calls)
    requires KeyOf(u.grant) !in Purged(TableAfter(check, maximumEntries, calls), now)
    requires later.request.grant == u.grant && later.now >= now
    ensures check(later) != None
  {
    TableIsHistory(check, maximumEntries, calls, now);
    assert KeyOf(u.grant) !in LiveKeys(History(check, maximumEntries, calls), now);
  }

  // ----- When a grant can be accepted twice ----------------------------------------------------------------------

  /** The longest time between two moments at which one grant passes the checks. */
  const LONGEST_VALIDITY_MS := MAXIMUM_TTL_MS + 2 * CLOCK_SKEW_MS

  ghost predicate AcceptedAt(check: Checks, maximumEntries: int, calls: seq<Call>, n: nat)
    requires n < |calls|
  {
    Submit(check, maximumEntries, TableAfter(check, maximumEntries, calls[..n]), calls[n]).1 == None
  }

  ghost predicate AcceptedTwice(check: Checks, maximumEntries: int, calls: seq<Call>) {
    exists i, k :: 0 <= i < k < |calls| && calls[i].request.grant == calls[k].request.grant
      && AcceptedAt(check, maximumEntries, calls, i) && AcceptedAt(check, maximumEntries, calls, k)
  }

  function Times(calls: seq<Call>): seq<int> {
    seq(|calls|, n requires 0 <= n < |calls| => calls[n].now)
  }

  /** The clock stands higher at `j` than both before at `i` and after at `k`. */
  ghost predicate Peak(times: seq<int>, i: int, j: int, k: int) {
    0 <= i < j < k < |times| && times[i] < times[j] && times[k] < times[j]
  }

  /** And the lower two times are not too far apart for one grant. */
  ghost predicate NearPeak(times: seq<int>, i: int, j: int, k: int) {
    Peak(times, i, j, k) && -LONGEST_VALIDITY_MS <= times[i] - times[k] <= LONGEST_VALIDITY_MS
  }

  ghost predicate Peaked(times: seq<int>) {
    exists i, j, k :: Peak(times, i, j, k)
  }

  ghost predicate NearlyPeaked(times: seq<int>) {
    exists i, j, k :: NearPeak(times, i, j, k)
  }

  lemma TableStep(check: Checks, maximumEntries: int, calls: seq<Call>, n: nat)
    requires n < |calls|
    ensures TableAfter(check, maximumEntries, calls[..n + 1])
            == Submit(check, maximumEntries, TableAfter(check, maximumEntries, calls[..n]), calls[n]).0
  {
    assert calls[..n + 1][..n] == calls[..n];
  }

  /** The entry of an accepted grant stays until a later call finds it expired. */
  ghost predicate EntryOrPurge(check: Checks, maximumEntries: int, calls: seq<Call>, i: nat, n: nat)
    requires i < n <= |calls|
  {
    var g, used := calls[i].request.grant, TableAfter(check, maximumEntries, calls[..n]);
    || (KeyOf(g) in used && used[KeyOf(g)] == ExpiryOf(g))
    || exists j :: i < j < n && ExpiryOf(g) < calls[j].now
  }

  lemma {:induction false} EntryStaysUntilPurged(check: Checks, maximumEntries: int, calls: seq<Call>, i: nat, n: nat)
    requires i < n <= |calls| && AcceptedAt(check, maximumEntries, calls, i)
    ensures EntryOrPurge(check, maximumEntries, calls, i, n)
    decreases n
  {
    TableStep(check, maximumEntries, calls, n - 1);
    if i < n - 1 {
      EntryStaysUntilPurged(check, maximumEntries, calls, i, n - 1);
      assert ExpiryOf(calls[i].request.grant) < calls[n - 1].now
             || EntryOrPurge(check, maximumEntries, calls, i, n);
    }
  }

  /** With room for one entry only, that entry outlives all that came before. */
  ghost predicate Outlives(used: Table, expiry: int) {
    used != map[] && forall k :: k in used ==> expiry <= used[k]
  }

  lemma {:induction false} LoneEntryOutlives(check: Checks, maximumEntries: int, calls: seq<Call>, i: nat, n: nat)
    requires Careful(check) && maximumEntries <= 1
    requires i < n <= |calls| && AcceptedAt(check, maximumEntries, calls, i)
    ensures Outlives(TableAfter(check, maximumEntries, calls[..n]), ExpiryOf(calls[i].request.grant))
    decreases n
  {
    hide Submit, Outlives, TableAfter;
    if i < n - 1 {
      LoneEntryOutlives(check, maximumEntries, calls, i, n - 1);
    }
    TableStep(check, maximumEntries, calls, n - 1);
    TableStaysSmall(check, maximumEntries, calls[..n - 1]);
    LoneEntryStep(check, maximumEntries, TableAfter(check, maximumEntries, calls[..n - 1]), calls[n - 1],
                  ExpiryOf(calls[i].request.grant));
  }

  lemma LoneEntryStep(check: Checks, maximumEntries: int, used: Table, call: Call, expiry: int)
    requires Careful(check) && maximumEntries <= 1 && |used| <= Max(0, maximumEntries)
    ensures var (table, refused) := Submit(check, maximumEntries, used, call);
      && (Outlives(used, expiry) ==> Outlives(table, expiry) && (refused.None? ==> expiry < call.now))
      && (refused.None? ==> Outlives(table, ExpiryOf(call.request.grant)))
  {
    if check(call).None? {
      var live := Purged(used, call.now);
      LoneEntry(used, live);
      if Outlives(used, expiry) && |live| < 1 {
        var k :| k in used;
        assert k !in live;
      }
    }
  }

  lemma LoneEntry(used: Table, live: Table)
    requires |used| <= 1 && live.Keys <= used.Keys && forall k :: k in live ==> live[k] == used[k]
    ensures live == map[] || live == used
    ensures |live| < 1 ==> live == map[]
  {
    if k :| k in live {
      assert used.Keys == {k} + (used.Keys - {k});
      assert |used.Keys| == 1 + |used.Keys - {k}|;
      assert used.Keys == {k};
    }
  }

  /** A grant is accepted twice only around a peak, and only if there is room for two entries. */
  lemma TwiceNeedsPeak(check: Checks, maximumEntries: int, calls: seq<Call>, i: nat, k: nat) returns (j: nat)
    requires Careful(check) && i < k < |calls| && calls[i].request.grant == calls[k].request.grant
    requires AcceptedAt(check, maximumEntries, calls, i) && AcceptedAt(check, maximumEntries, calls, k)
    ensures maximumEntries >= 2 && Peak(Times(calls), i, j, k)
  {
    var g := calls[i].request.grant;
    if maximumEntries <= 1 {
      LoneEntryOutlives(check, maximumEntries, calls, i, k);
      TableStaysSmall(check, maximumEntries, calls[..k]);
      LoneEntryStep(check, maximumEntries, TableAfter(check, maximumEntries, calls[..k]), calls[k], ExpiryOf(g));
      assert false;
    }
    EntryStaysUntilPurged(check, maximumEntries, calls, i, k);
    j :| i < j < k && ExpiryOf(g) < calls[j].now;
  }

  /** Which calls two of the accepted grants came from. */
  lemma {:induction false} CallOfUse(check: Checks, maximumEntries: int, calls: seq<Call>, a: nat) returns (i: nat)
    requires a < |History(check, maximumEntries, calls)|
    ensures i < |calls| && AcceptedAt(check, maximumEntries, calls, i)
    ensures calls[i].request.grant == History(check, maximumEntries, calls)[a].grant
    decreases |calls|
  {
    var front := calls[..|calls| - 1];
    if a < |History(check, maximumEntries, front)| {
      i := CallOfUse(check, maximumEntries, front, a);
      assert front[..i] == calls[..i];
    } else {
      i := |calls| - 1;
    }
  }

  lemma {:induction false} CallsOfUses(check: Checks, maximumEntries: int, calls: seq<Call>, a: nat, b: nat)
    returns (i: nat, k: nat)
    requires a < b < |History(check, maximumEntries, calls)|
    ensures i < k < |calls| && AcceptedAt(check, maximumEntries, calls, i)
        && AcceptedAt(check, maximumEntries, calls, k)
    ensures calls[i].request.grant == History(check, maximumEntries, calls)[a].grant
    ensures calls[k].request.grant == History(check, maximumEntries, calls)[b].grant
    decreases |calls|
  {
    var front := calls[..|calls| - 1];
    if b < |History(check, maximumEntries, front)| {
      i, k := CallsOfUses(check, maximumEntries, front, a, b);
      assert front[..i] == calls[..i] && front[..k] == calls[..k];
    } else {
      i := CallOfUse(check, maximumEntries, front, a);
      assert front[..i] == calls[..i];
      k := |calls| - 1;
    }
  }

  /**
   However many requests come in: unless the clock goes up and back down, no grant is accepted twice, and the
   table always stays within its bound.
   */
  lemma NoGrantIsAcceptedTwice(check: Checks, maximumEntries: int, calls: seq<Call>)
    requires Careful(check)
    ensures !Peaked(Times(calls)) ==> var history := History(check, maximumEntries, calls);
            forall a, b :: 0 <= a < b < |history| ==> history[a].grant != history[b].grant
    ensures |TableAfter(check, maximumEntries, calls)| <= Max(0, maximumEntries)
  {
    var history := History(check, maximumEntries, calls);
    TableStaysSmall(check, maximumEntries, calls);
    forall a, b | 0 <= a < b < |history| && history[a].grant == history[b].grant ensures Peaked(Times(calls)) {
      var i, k := CallsOfUses(check, maximumEntries, calls, a, b);
      var j := TwiceNeedsPeak(check, maximumEntries, calls, i, k);
    }
  }

  // ----- The replay at a peak ------------------------------------------------------------------------------------

  /** A target and a runtime that restarts can be made for, and the time that timestamps can name. */
  datatype Place = Place(target: Text, runtime: Text, from: int, until: int)

  predicate IsRestartAt(plan: Plan, p: Place) {
    IsPlan(plan) && plan.operation.Restart? && plan.target == p.target && plan.previousRuntime == p.runtime
    && plan.release == []
  }

  /** Every well-formed restart at this place can be signed and sent, as long as its times can be named. */
  ghost predicate Creates(c: Crypto, p: Place) {
    forall plan, userId, nonce, now, ttl ::
      IsRestartAt(plan, p) && IsIdentifier(userId) && IsIdentifier(nonce) && 1 <= ttl <= MAXIMUM_TTL_MS
          && p.from <= now && now + ttl <= p.until ==>
        Create(c, 1, plan, userId, nonce, now, Some(ttl)).Ok?
  }

  /** Such cryptography is possible, also if everything else is refused. */
  lemma SomeCrypto(p: Place) returns (c: Crypto)
    ensures Verifies(c) && Creates(c, p)
    ensures forall r :: c.shaped(r) <==>
      r.plan.target == p.target && r.plan.previousRuntime == p.runtime && r.plan.release == []
      && p.from <= r.grant.issuedAt && r.grant.expiresAt <= p.until
  {
    c := Crypto(_ => [], _ => [], _ => [], _ => true, (_, _) => true,
                (r: Request) => r.plan.target == p.target && r.plan.previousRuntime == p.runtime && r.plan.release == []
                                && p.from <= r.grant.issuedAt && r.grant.expiresAt <= p.until);
  }

  /** A grant whose entry another call has purged is accepted again where the clock is back. */
  lemma ClockGoingBackReplays(g: Grant, h: Grant, maximumEntries: int, before: int, above: int, after: int)
    requires KeyOf(g) != KeyOf(h) && maximumEntries >= 2 && ExpiryOf(g) < above
    ensures var first := Present(map[], maximumEntries, g, before);
            var second := Present(first.0, maximumEntries, h, above);
            var third := Present(second.0, maximumEntries, g, after);
            first.1 == None && second.1 == None && third.1 == None
            && first.0 == map[KeyOf(g) := ExpiryOf(g)] && second.0 == map[KeyOf(h) := ExpiryOf(h)]
  {
    var first := Present(map[], maximumEntries, g, before).0;
    assert first == map[KeyOf(g) := ExpiryOf(g)];
    var second := Present(first, maximumEntries, h, above).0;
    assert second == map[KeyOf(h) := ExpiryOf(h)];
    PurgedIsSmaller(second, after);
    assert |Purged(second, after)| <= 1;
  }

  /** Calls that fail the checks leave the table alone. */
  lemma {:induction false} IdleTable(check: Checks, maximumEntries: int, calls: seq<Call>, start: nat, end: nat)
    requires start <= end <= |calls| && forall n :: start <= n < end ==> check(calls[n]).Some?
    ensures TableAfter(check, maximumEntries, calls[..end]) == TableAfter(check, maximumEntries, calls[..start])
    decreases end
  {
    if end > start {
      IdleTable(check, maximumEntries, calls, start, end - 1);
      TableStep(check, maximumEntries, calls, end - 1);
    }
  }

  /** A restart of one machine, under a one-letter operation. */
  function RestartPlan(p: Place, operation: CodeUnit): Plan {
    Plan(['m' as int], [operation], Restart, p.target, p.runtime, [])
  }

  function OptionsAt(p: Place): Options {
    Options(1, ['m' as int], p.target)
  }

  /** The request for a restart that lives as long as a request may, up to and including the time `last`. */
  function LongRequest(c: Crypto, p: Place, operation: CodeUnit, last: int): Result<Request> {
    Create(c, 1, RestartPlan(p, operation), ['u' as int], ['n' as int], last - CLOCK_SKEW_MS - MAXIMUM_TTL_MS,
           Some(MAXIMUM_TTL_MS))
  }

  lemma LongRequestPasses(c: Crypto, p: Place, operation: CodeUnit, last: int)
    requires Verifies(c) && Creates(c, p) && Alphanumeric(operation) && Nameable(p, last)
    ensures LongRequest(c, p, operation, last).Ok?
    ensures var request := LongRequest(c, p, operation, last).value;
      && ExpiryOf(request.grant) == last && KeyOf(request.grant) == Key(['m' as int], 1, [operation])
      && forall now :: Check(c, request, OptionsAt(p), now) == None <==> last - LONGEST_VALIDITY_MS <= now <= last
  {
    var plan := RestartPlan(p, operation);
    var issued := last - CLOCK_SKEW_MS - MAXIMUM_TTL_MS;
    assert Create(c, 1, plan, ['u' as int], ['n' as int], issued, Some(MAXIMUM_TTL_MS)).Ok?;
    forall now
      ensures Check(c, LongRequest(c, p, operation, last).value, OptionsAt(p), now) == None
          <==> last - LONGEST_VALIDITY_MS <= now <= last
    {
      CreatedPassesExactly(c, 1, plan, ['u' as int], ['n' as int], issued, Some(MAXIMUM_TTL_MS), OptionsAt(p), now);
    }
  }

  /** A time at which a request can end whose validity is as long as it may be. */
  predicate Nameable(p: Place, time: int) {
    p.from + LONGEST_VALIDITY_MS <= time <= p.until
  }

  /** The calls of the replay: `g` at both sides of the peak, `h` at the peak, and elsewhere what no check lets pass. */
  function ReplayCalls(times: seq<int>, i: nat, j: nat, k: nat, g: Request, h: Request, options: Options)
    : (calls: seq<Call>)
    ensures |calls| == |times| && Times(calls) == times
  {
    var bad := g.(grant := g.grant.(generation := 0));
    seq(|times|, n requires 0 <= n < |times| =>
      Call(if n == i || n == k then g else if n == j then h else bad, options, times[n]))
  }

  /** The table at the peak: `g` alone, `h` alone, and `g` let in again. */
  lemma AcceptedAroundPeak(check: Checks, maximumEntries: int, calls: seq<Call>, i: nat, j: nat, k: nat)
    requires i < j < k < |calls| && maximumEntries >= 2
    requires forall n :: 0 <= n <= k ==> (check(calls[n]).None? <==> n == i || n == j || n == k)
    requires calls[i].request == calls[k].request && KeyOf(calls[i].request.grant) != KeyOf(calls[j].request.grant)
    requires ExpiryOf(calls[i].request.grant) < calls[j].now
    ensures AcceptedAt(check, maximumEntries, calls, i) && AcceptedAt(check, maximumEntries, calls, k)
  {
    hide Present, Purged;
    ClockGoingBackReplays(calls[i].request.grant, calls[j].request.grant, maximumEntries,
                          calls[i].now, calls[j].now, calls[k].now);
    IdleTable(check, maximumEntries, calls, 0, i);
    TableStep(check, maximumEntries, calls, i);
    IdleTable(check, maximumEntries, calls, i + 1, j);
    TableStep(check, maximumEntries, calls, j);
    IdleTable(check, maximumEntries, calls, j + 1, k);
  }

  /** At a near peak a request can be created that is accepted before and after it. */
  lemma PeakReplays(c: Crypto, p: Place, maximumEntries: int, times: seq<int>, i: nat, j: nat, k: nat)
    returns (calls: seq<Call>)
    requires Verifies(c) && Creates(c, p) && maximumEntries >= 2 && NearPeak(times, i, j, k)
    requires forall n :: 0 <= n < |times| ==> Nameable(p, times[n])
    ensures Times(calls) == times && AcceptedTwice(CheckOf(c), maximumEntries, calls)
  {
    hide LongRequest, AcceptedAt;
    var last := Max(times[i], times[k]);
    LongRequestPasses(c, p, 'g' as int, last);
    LongRequestPasses(c, p, 'h' as int, times[j]);
    var g, h := LongRequest(c, p, 'g' as int, last).value, LongRequest(c, p, 'h' as int, times[j]).value;
    calls := ReplayCalls(times, i, j, k, g, h, OptionsAt(p));
    AcceptedAroundPeak(CheckOf(c), maximumEntries, calls, i, j, k);
  }

  /** A grant that passes the checks twice does so within its validity. */
  lemma PassesWithinValidity(c: Crypto, a: Call, b: Call)
    requires CheckOf(c)(a) == None && CheckOf(c)(b) == None && a.request.grant == b.request.grant
    ensures -LONGEST_VALIDITY_MS <= a.now - b.now <= LONGEST_VALIDITY_MS
  {
  }

  /** Some requests at these times get a grant accepted twice. */
  ghost predicate CanReplay(c: Crypto, maximumEntries: int, times: seq<int>) {
    exists calls: seq<Call> :: Times(calls) == times && AcceptedTwice(CheckOf(c), maximumEntries, calls)
  }

  /** No grant is accepted twice but around a near peak, whatever the cryptography and the place. */
  lemma ReplayNeedsPeak(c: Crypto, maximumEntries: int, times: seq<int>)
    ensures CanReplay(c, maximumEntries, times) ==> maximumEntries >= 2 && NearlyPeaked(times)
  {
    if CanReplay(c, maximumEntries, times) {
      var calls: seq<Call> :| Times(calls) == times && AcceptedTwice(CheckOf(c), maximumEntries, calls);
      var i, k :| 0 <= i < k < |calls| && calls[i].request.grant == calls[k].request.grant
        && AcceptedAt(CheckOf(c), maximumEntries, calls, i) && AcceptedAt(CheckOf(c), maximumEntries, calls, k);
      ChecksAreCareful(c);
      var j := TwiceNeedsPeak(CheckOf(c), maximumEntries, calls, i, k);
      PassesWithinValidity(c, calls[i], calls[k]);
      assert NearPeak(times, i, j, k);
    }
  }

  /**
   Which clocks let a grant be accepted twice, at times for which requests can be made: exactly those that go up and
   back down to where the grant is still valid.
   */
  lemma ReplaysExactly(c: Crypto, p: Place, maximumEntries: int, times: seq<int>)
    requires Verifies(c) && Creates(c, p) && forall n :: 0 <= n < |times| ==> Nameable(p, times[n])
    ensures CanReplay(c, maximumEntries, times) <==> maximumEntries >= 2 && NearlyPeaked(times)
  {
    ReplayNeedsPeak(c, maximumEntries, times);
    if maximumEntries >= 2 && NearlyPeaked(times) {
      var i, j, k :| NearPeak(times, i, j, k);
      var calls := PeakReplays(c, p, maximumEntries, times, i, j, k);
    }
  }
}
