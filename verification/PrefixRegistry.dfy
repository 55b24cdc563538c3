/** The prefix registry: entries, session records and hot scores under a clock. */
module PrefixRegistry {
  import opened Text
  import opened Seqs

  datatype Entry = Entry(
    key: string,
    namespace: string,
    modelID: string,
    prefixHash: string,
    systemHash: string,
    memoryHash: string,
    ragHash: string,
    promptLayoutVersion: string,
    artifactKeyVersion: string,
    cacheOptimizationAim: string,
    normalizationVersion: string,
    cacheTier: string,
    appliedTTL: int,
    hot: bool,
    createdAt: int,
    lastSeenAt: int,
    hitCount: nat)

  /** What a failed load leaves in place of a record. */
  const NO_ENTRY := Entry("", "", "", "", "", "", "", "", "", "", "", "", 0, false, 0, 0, 0)

  /** A value that is gone once the clock reaches `expires`. */
  datatype Timed<T> = Timed(value: T, expires: int) {
    predicate Live(now: int) {
      now < expires
    }
  }

  datatype Config = Config(keyPrefix: string, prefixTTL: int, hotTTL: int, hotThreshold: int) {
    /** What the constructor's defaults guarantee. */
    predicate Valid() {
      prefixTTL > 0 && hotTTL > 0 && hotThreshold > 0
    }

    /** resolvePrefixTTL. */
    function TTL(hitCount: nat): int {
      if hitCount >= hotThreshold then hotTTL else prefixTTL
    }

    function StorageKey(namespace: string, hash: string): string {
      keyPrefix + ":prefix:" + (if Blank(namespace) then hash else namespace + ":" + hash)
    }
  }

  function HotKey(namespace: string): string {
    if Blank(namespace) then "global" else namespace
  }

  datatype Store = Store(
    entries: map<string, Timed<Entry>>,
    sessions: map<string, Timed<Entry>>,
    hotSets: map<string, Timed<map<string, nat>>>)

  const EMPTY := Store(map[], map[], map[])

  function Load(records: map<string, Timed<Entry>>, key: string, now: int): (Entry, bool) {
    if key in records && records[key].Live(now) then (records[key].value, true) else (NO_ENTRY, false)
  }

  datatype Request = Request(entry: Entry, sessionScope: string)

  datatype Outcome =
    | Rejected
    | Registered(entry: Entry, previous: Entry, result: string, missReason: string, segmentReason: string,
      hotScore: nat)

  /** diagnoseMiss. */
  function DiagnoseMiss(previous: Entry, current: Entry): (string, string) {
    if previous.modelID == "" then ("created", "cold_start")
    else if previous.modelID != current.modelID then ("model_changed", "model_changed")
    else if previous.prefixHash == current.prefixHash then ("ttl_expired", "ttl_expired")
    else if previous.systemHash != current.systemHash then ("hash_changed", "system_changed")
    else if previous.memoryHash != current.memoryHash then ("hash_changed", "memory_changed")
    else if previous.ragHash != current.ragHash then ("hash_changed", "rag_changed")
    else if previous.normalizationVersion != current.normalizationVersion then ("hash_changed", "normalization_changed")
    else ("hash_changed", "combined_changed")
  }

  /** What a registration has read before it writes. */
  datatype Snapshot = Snapshot(current: Entry, found: bool, previous: Entry)

  function LoadStep(cfg: Config, st: Store, now: int, r: Request): Snapshot {
    var (current, found) := Load(st.entries, cfg.StorageKey(r.entry.namespace, r.entry.prefixHash), now);
    var (previous, _) := if Blank(r.sessionScope) then (NO_ENTRY, false) else Load(st.sessions, r.sessionScope, now);
    Snapshot(current, found, previous)
  }

  function Or(value: string, otherwise: string): string {
    if value == "" then otherwise else value
  }

  /** The entry to be stored. */
  function Admit(cfg: Config, now: int, r: Request, seen: Snapshot): Entry {
    var count := if seen.found then seen.current.hitCount + 1 else 1;
    var e := r.entry.(
      key := if Blank(r.entry.key) then r.entry.prefixHash else r.entry.key,
      createdAt := if seen.found then seen.current.createdAt else now,
      lastSeenAt := now,
      hitCount := count,
      cacheTier := if count >= cfg.hotThreshold then "hot" else "default",
      appliedTTL := cfg.TTL(count),
      hot := count >= cfg.hotThreshold);
    if seen.found then e.(
      promptLayoutVersion := Or(e.promptLayoutVersion, seen.current.promptLayoutVersion),
      artifactKeyVersion := Or(e.artifactKeyVersion, seen.current.artifactKeyVersion),
      cacheOptimizationAim := Or(e.cacheOptimizationAim, seen.current.cacheOptimizationAim))
    else e
  }

  /** recordHotPrefix: the increment, then the set's new expiry. */
  function Bump(hotSets: map<string, Timed<map<string, nat>>>, hotKey: string, hash: string, now: int, ttl: int)
    : map<string, Timed<map<string, nat>>>
  {
    var scores := if hotKey in hotSets && hotSets[hotKey].Live(now) then hotSets[hotKey].value else map[];
    hotSets[hotKey := Timed(scores[hash := (if hash in scores then scores[hash] else 0) + 1], now + ttl)]
  }

  function WriteStep(cfg: Config, st: Store, now: int, r: Request, seen: Snapshot): (Store, Outcome) {
    var e := Admit(cfg, now, r, seen);
    var record := Timed(e, now + e.appliedTTL);
    var hotKey := HotKey(e.namespace);
    var st' := Store(
      st.entries[cfg.StorageKey(e.namespace, e.prefixHash) := record],
      if Blank(r.sessionScope) then st.sessions else st.sessions[r.sessionScope := record],
      Bump(st.hotSets, hotKey, e.prefixHash, now, e.appliedTTL));
    var (missReason, segmentReason) := if seen.found then ("none", "none") else DiagnoseMiss(seen.previous, e);
    (st', Registered(e, seen.previous, if seen.found then "hit" else "created", missReason, segmentReason,
                     st'.hotSets[hotKey].value[e.prefixHash]))
  }

  /** RegisterPrefix as one step. */
  function Register(cfg: Config, st: Store, now: int, r: Request): (Store, Outcome) {
    if Blank(r.entry.prefixHash) then (st, Rejected)
    else WriteStep(cfg, st, now, r, LoadStep(cfg, st, now, r))
  }

  class RedisRepository {
    const cfg: Config
    var store: Store

    constructor (cfg: Config)
      ensures this.cfg == cfg && store == EMPTY
    {
      this.cfg := cfg;
      store := EMPTY;
    }

    /** The entry that a registration is about to store. */
    method Prepare(now: int, r: Request, seen: Snapshot) returns (e: Entry)
      ensures e == Admit(cfg, now, r, seen)
    {
      e := r.entry;
      if Blank(e.key) {
        e := e.(key := e.prefixHash);
      }
      if seen.found {
        e := e.(createdAt := seen.current.createdAt, hitCount := seen.current.hitCount + 1);
        if e.promptLayoutVersion == "" {
          e := e.(promptLayoutVersion := seen.current.promptLayoutVersion);
        }
        if e.artifactKeyVersion == "" {
          e := e.(artifactKeyVersion := seen.current.artifactKeyVersion);
        }
        if e.cacheOptimizationAim == "" {
          e := e.(cacheOptimizationAim := seen.current.cacheOptimizationAim);
        }
      } else {
        e := e.(createdAt := now, hitCount := 1);
      }
      var tier := if e.hitCount >= cfg.hotThreshold then "hot" else "default";
      e := e.(lastSeenAt := now, cacheTier := tier, appliedTTL := cfg.TTL(e.hitCount), hot := tier == "hot");
    }

    method RegisterPrefix(now: int, r: Request) returns (outcome: Outcome)
      modifies this`store
      ensures (store, outcome) == Register(cfg, old(store), now, r)
    {
      if Blank(r.entry.prefixHash) {
        return Rejected;
      }
      var seen := ReadBoth(now, r);
      var e := Prepare(now, r, seen);
      var reasons := if seen.found then ("none", "none") else DiagnoseMiss(seen.previous, e);
      var hotScore := Persist(cfg.StorageKey(e.namespace, e.prefixHash), r.sessionScope, e, now);
      outcome := Registered(e, seen.previous, if seen.found then "hit" else "created", reasons.0, reasons.1, hotScore);
    }

    /** The two reads: the entry under its storage key, then the session's previous record. */
    method ReadBoth(now: int, r: Request) returns (seen: Snapshot)
      ensures seen == LoadStep(cfg, store, now, r)
    {
      var (current, found) := Load(store.entries, cfg.StorageKey(r.entry.namespace, r.entry.prefixHash), now);
      var previous := NO_ENTRY;
      if !Blank(r.sessionScope) {
        var (loaded, _) := Load(store.sessions, r.sessionScope, now);
        previous := loaded;
      }
      seen := Snapshot(current, found, previous);
    }

    /** The three writes: the entry, the session record and the hot score. */
    method Persist(storageKey: string, sessionScope: string, e: Entry, now: int) returns (hotScore: nat)
      modifies this`store
      ensures store.entries == old(store.entries)[storageKey := Timed(e, now + e.appliedTTL)]
      ensures store.sessions == if Blank(sessionScope) then old(store.sessions)
                                else old(store.sessions)[sessionScope := Timed(e, now + e.appliedTTL)]
      ensures store.hotSets == Bump(old(store.hotSets), HotKey(e.namespace), e.prefixHash, now, e.appliedTTL)
      ensures hotScore == store.hotSets[HotKey(e.namespace)].value[e.prefixHash]
    {
      store := store.(entries := store.entries[storageKey := Timed(e, now + e.appliedTTL)]);
      if !Blank(sessionScope) {
        store := store.(sessions := store.sessions[sessionScope := Timed(e, now + e.appliedTTL)]);
      }
      var hotKey := HotKey(e.namespace);
      store := store.(hotSets := Bump(store.hotSets, hotKey, e.prefixHash, now, e.appliedTTL));
      hotScore := store.hotSets[hotKey].value[e.prefixHash];
    }
  }

  // ----- runs -----

  datatype Event = Event(at: int, request: Request)

  predicate Ordered(events: seq<Event>) {
    forall i, j :: 0 <= i < j < |events| ==> events[i].at <= events[j].at
  }

  /** The store after a run that started empty. */
  function After(cfg: Config, events: seq<Event>): Store {
    if events == [] then EMPTY
    else
      var last := events[|events| - 1];
      Register(cfg, After(cfg, events[..|events| - 1]), last.at, last.request).0
  }

  /** What the i-th registration of a run reported. */
  function Report(cfg: Config, events: seq<Event>, i: nat): Outcome
    requires i < |events|
  {
    Register(cfg, After(cfg, events[..i]), events[i].at, events[i].request).1
  }

  lemma AfterLast(cfg: Config, events: seq<Event>)
    requires events != []
    ensures var n := |events| - 1;
      (After(cfg, events), Report(cfg, events, n)) ==
        Register(cfg, After(cfg, events[..n]), events[n].at, events[n].request)
  {}

  /** Every session scope that is not blank is used with one namespace only. */
  ghost predicate ScopesTied(events: seq<Event>) {
    forall i, j :: 0 <= i < |events| && 0 <= j < |events| && SameSession(events[i], events[j]) ==>
      events[i].request.entry.namespace == events[j].request.entry.namespace
  }

  /** Two registrations by one session; a blank scope is no session. */
  predicate SameSession(a: Event, b: Event) {
    a.request.sessionScope == b.request.sessionScope && !Blank(a.request.sessionScope)
  }

  /** Long-lived means at least as long-lived, or every entry is hot from the start. */
  predicate Steady(cfg: Config) {
    cfg.hotTTL >= cfg.prefixTTL || cfg.hotThreshold <= 1
  }

  /** A session record lasts no longer than the entry it names, and while it lives that entry has counted on. */
  ghost predicate Backed(cfg: Config, st: Store, now: int, session: Timed<Entry>) {
    var key := cfg.StorageKey(session.value.namespace, session.value.prefixHash);
    && session.value.hitCount >= 1
    && session.value.lastSeenAt <= now
    && session.expires == session.value.lastSeenAt + cfg.TTL(session.value.hitCount)
    && key in st.entries && session.expires <= st.entries[key].expires
    && (session.Live(now) ==> session.value.hitCount <= st.entries[key].value.hitCount)
  }

  ghost predicate SessionsBacked(cfg: Config, st: Store, now: int) {
    forall scope :: scope in st.sessions ==> Backed(cfg, st, now, st.sessions[scope])
  }

  /** A session record that the registration does not write stays backed. */
  lemma OtherSessionStaysBacked(cfg: Config, st: Store, before: int, now: int, r: Request, session: Timed<Entry>)
    requires cfg.Valid() && Steady(cfg) && before <= now
    requires Backed(cfg, st, before, session)
    ensures Backed(cfg, Register(cfg, st, now, r).0, now, session)
  {
    var key := cfg.StorageKey(session.value.namespace, session.value.prefixHash);
    if !Blank(r.entry.prefixHash) && key == cfg.StorageKey(r.entry.namespace, r.entry.prefixHash) {
      var e := Admit(cfg, now, r, LoadStep(cfg, st, now, r));
      assert Register(cfg, st, now, r).0.entries[key] == Timed(e, now + cfg.TTL(e.hitCount));
      if session.Live(now) {
        assert st.entries[key].Live(now) && e.hitCount == st.entries[key].value.hitCount + 1;
      }
    }
  }

  lemma RegisterKeepsBacked(cfg: Config, st: Store, before: int, now: int, r: Request)
    requires cfg.Valid() && Steady(cfg) && before <= now
    requires SessionsBacked(cfg, st, before)
    ensures SessionsBacked(cfg, Register(cfg, st, now, r).0, now)
  {
    var st' := Register(cfg, st, now, r).0;
    forall scope | scope in st'.sessions
      ensures Backed(cfg, st', now, st'.sessions[scope])
    {
      if scope in st.sessions && st'.sessions[scope] == st.sessions[scope] {
        OtherSessionStaysBacked(cfg, st, before, now, r, st.sessions[scope]);
      }
    }
  }

  lemma {:induction false} RunKeepsBacked(cfg: Config, events: seq<Event>, now: int)
    requires cfg.Valid() && Steady(cfg) && Ordered(events)
    requires events != [] ==> events[|events| - 1].at <= now
    ensures SessionsBacked(cfg, After(cfg, events), now)
  {
    if events != [] {
      var init, last := events[..|events| - 1], events[|events| - 1];
      RunKeepsBacked(cfg, init, last.at);
      RegisterKeepsBacked(cfg, After(cfg, init), last.at, last.at, last.request);
      LaterBacked(cfg, After(cfg, events), last.at, now);
    }
  }

  lemma LaterBacked(cfg: Config, st: Store, before: int, now: int)
    requires before <= now && SessionsBacked(cfg, st, before)
    ensures SessionsBacked(cfg, st, now)
  {
    forall scope | scope in st.sessions
      ensures Backed(cfg, st, now, st.sessions[scope])
    {
      assert Backed(cfg, st, before, st.sessions[scope]);
    }
  }

  /** After any run, a live session record names an entry that is live and expires no earlier. */
  lemma LiveSessionHasLiveEntry(cfg: Config, events: seq<Event>, now: int, scope: string)
    requires cfg.Valid() && Steady(cfg) && Ordered(events)
    requires events != [] ==> events[|events| - 1].at <= now
    requires var st := After(cfg, events); scope in st.sessions && st.sessions[scope].Live(now)
    ensures var st := After(cfg, events);
      var session := st.sessions[scope];
      var key := cfg.StorageKey(session.value.namespace, session.value.prefixHash);
      key in st.entries && st.entries[key].Live(now) && session.expires <= st.entries[key].expires
  {
    RunKeepsBacked(cfg, events, now);
    assert Backed(cfg, After(cfg, events), now, After(cfg, events).sessions[scope]);
  }

  // ----- ttl_expired -----

  ghost predicate Uses(events: seq<Event>, scope: string, namespace: string) {
    exists i ::
      0 <= i < |events| && events[i].request.sessionScope == scope && events[i].request.entry.namespace == namespace
  }

  /** A session record carries the namespace of some registration by its scope. */
  lemma {:induction false} SessionComesFromRun(cfg: Config, events: seq<Event>, scope: string)
    requires scope in After(cfg, events).sessions
    ensures !Blank(scope) && Uses(events, scope, After(cfg, events).sessions[scope].value.namespace)
  {
    var n := |events| - 1;
    var st := After(cfg, events[..n]);
    if scope in st.sessions && After(cfg, events).sessions[scope] == st.sessions[scope] {
      var namespace := st.sessions[scope].value.namespace;
      SessionComesFromRun(cfg, events[..n], scope);
      var i :| 0 <= i < n && events[..n][i].request.sessionScope == scope &&
        events[..n][i].request.entry.namespace == namespace;
      assert events[i] == events[..n][i];
    } else {
      assert events[n].request.sessionScope == scope;
    }
  }

  ghost predicate ExpiryAt(cfg: Config, events: seq<Event>, i: nat)
    requires i < |events|
  {
    Report(cfg, events, i).Registered? && Report(cfg, events, i).missReason == "ttl_expired"
  }

  ghost predicate ReportsExpiry(cfg: Config, events: seq<Event>) {
    exists i :: 0 <= i < |events| && ExpiryAt(cfg, events, i)
  }

  /** The report ttl_expired means: the session record is live and names this very entry, and the entry is gone. */
  lemma ExpiryReportedExactly(cfg: Config, st: Store, now: int, r: Request)
    requires r.entry.modelID != "" && !Blank(r.entry.prefixHash)
    ensures var report := Register(cfg, st, now, r).1;
      report.Registered? && (report.missReason == "ttl_expired" <==>
        && !Load(st.entries, cfg.StorageKey(r.entry.namespace, r.entry.prefixHash), now).1
        && !Blank(r.sessionScope) && r.sessionScope in st.sessions && st.sessions[r.sessionScope].Live(now)
        && st.sessions[r.sessionScope].value.modelID == r.entry.modelID
        && st.sessions[r.sessionScope].value.prefixHash == r.entry.prefixHash)
  {
    var seen := LoadStep(cfg, st, now, r);
    var e := Admit(cfg, now, r, seen);
    assert e.modelID == r.entry.modelID && e.prefixHash == r.entry.prefixHash;
  }

  /** The fields a diagnosis reads. */
  predicate SameIdentity(a: Entry, b: Entry) {
    && a.modelID == b.modelID && a.prefixHash == b.prefixHash && a.systemHash == b.systemHash &&
      a.memoryHash == b.memoryHash
    && a.ragHash == b.ragHash && a.normalizationVersion == b.normalizationVersion
  }

  lemma AdmitKeepsEntry(cfg: Config, now: int, r: Request, seen: Snapshot)
    ensures SameIdentity(Admit(cfg, now, r, seen), r.entry)
  {}

  lemma ReportKeepsEntry(cfg: Config, st: Store, now: int, r: Request)
    requires !Blank(r.entry.prefixHash)
    ensures var report := Register(cfg, st, now, r).1; report.Registered? && SameIdentity(report.entry, r.entry)
  {
    AdmitKeepsEntry(cfg, now, r, LoadStep(cfg, st, now, r));
  }

  /** What a registration leaves in the session records. */
  lemma RegisteredSession(cfg: Config, st: Store, now: int, r: Request)
    requires !Blank(r.entry.prefixHash)
    ensures var (after, report) := Register(cfg, st, now, r);
      && report.Registered?
      && after.sessions ==
           if Blank(r.sessionScope) then st.sessions
           else st.sessions[r.sessionScope := Timed(report.entry, now + report.entry.appliedTTL)]
  {
    assert Register(cfg, st, now, r) == WriteStep(cfg, st, now, r, LoadStep(cfg, st, now, r));
  }

  /** A registration that finds no entry reports a creation and the diagnosis of the session's previous entry. */
  lemma MissReport(cfg: Config, st: Store, now: int, r: Request)
    requires !Blank(r.entry.prefixHash) && !LoadStep(cfg, st, now, r).found
    ensures var report := Register(cfg, st, now, r).1;
      report.Registered? && report.result == "created"
      && (report.missReason, report.segmentReason) == DiagnoseMiss(LoadStep(cfg, st, now, r).previous, r.entry)
  {
    var e := Admit(cfg, now, r, LoadStep(cfg, st, now, r));
    assert DiagnoseMiss(LoadStep(cfg, st, now, r).previous, e) ==
      DiagnoseMiss(LoadStep(cfg, st, now, r).previous, r.entry);
  }

  lemma ExpiryNeedsLiveSession(cfg: Config, st: Store, now: int, r: Request)
    requires var report := Register(cfg, st, now, r).1; report.Registered? && report.missReason == "ttl_expired"
    ensures !Load(st.entries, cfg.StorageKey(r.entry.namespace, r.entry.prefixHash), now).1
    ensures r.sessionScope in st.sessions && st.sessions[r.sessionScope].Live(now)
    ensures st.sessions[r.sessionScope].value.prefixHash == r.entry.prefixHash
  {
    var seen := LoadStep(cfg, st, now, r);
    var e := Admit(cfg, now, r, seen);
    assert e.modelID == r.entry.modelID && e.prefixHash == r.entry.prefixHash;
    assert DiagnoseMiss(seen.previous, e).0 == "ttl_expired";
  }

  /** With scopes tied, a session record carries the namespace of every registration by its scope. */
  lemma SessionNamespace(cfg: Config, events: seq<Event>, i: nat)
    requires ScopesTied(events) && i < |events|
    requires events[i].request.sessionScope in After(cfg, events[..i]).sessions
    ensures After(cfg, events[..i]).sessions[events[i].request.sessionScope].value.namespace ==
      events[i].request.entry.namespace
  {
    var scope := events[i].request.sessionScope;
    var namespace := After(cfg, events[..i]).sessions[scope].value.namespace;
    SessionComesFromRun(cfg, events[..i], scope);
    var j :| 0 <= j < i && events[..i][j].request.sessionScope == scope &&
      events[..i][j].request.entry.namespace == namespace;
    assert events[..i][j] == events[j] && SameSession(events[j], events[i]);
  }

  lemma OrderedPrefix(events: seq<Event>, i: nat)
    requires Ordered(events) && i < |events|
    ensures Ordered(events[..i]) && (i > 0 ==> events[..i][i - 1].at <= events[i].at)
  {}

  lemma SteadyNeverExpiresAt(cfg: Config, events: seq<Event>, i: nat)
    requires cfg.Valid() && Steady(cfg) && Ordered(events) && ScopesTied(events) && i < |events|
    ensures !ExpiryAt(cfg, events, i)
  {
    if ExpiryAt(cfg, events, i) {
      var init, now, r := events[..i], events[i].at, events[i].request;
      ExpiryNeedsLiveSession(cfg, After(cfg, init), now, r);
      SessionNamespace(cfg, events, i);
      OrderedPrefix(events, i);
      LiveSessionHasLiveEntry(cfg, init, now, r.sessionScope);
    }
  }

  /** A steady configuration never reports ttl_expired in a sequential run. */
  lemma SteadyNeverReportsExpiry(cfg: Config, events: seq<Event>)
    requires cfg.Valid() && Steady(cfg) && Ordered(events) && ScopesTied(events)
    ensures !ReportsExpiry(cfg, events)
  {
    forall i | 0 <= i < |events|
      ensures !ExpiryAt(cfg, events, i)
    {
      SteadyNeverExpiresAt(cfg, events, i);
    }
  }

  /** n registrations by one session at one moment. */
  function Burst(n: nat, e: Event): seq<Event> {
    seq(n, i => e)
  }

  lemma BurstStep(prefix: seq<Event>, n: nat, e: Event)
    requires n > 0
    ensures var events := prefix + Burst(n, e);
      events[|events| - 1] == e && events[..|events| - 1] == prefix + Burst(n - 1, e)
  {}

  lemma AfterOne(cfg: Config, e: Event)
    ensures After(cfg, [e]) == Register(cfg, EMPTY, e.at, e.request).0
  {
    assert [e][..0] == [];
    assert After(cfg, [e][..0]) == EMPTY;
  }

  lemma AfterBurst(cfg: Config, prefix: seq<Event>, n: nat, e: Event)
    requires n > 0
    ensures After(cfg, prefix + Burst(n, e)) == Register(cfg, After(cfg, prefix + Burst(n - 1, e)), e.at, e.request).0
  {
    BurstStep(prefix, n, e);
  }

  function Plain(hash: string): Entry {
    NO_ENTRY.(modelID := "m", prefixHash := hash)
  }

  function By(scope: string, hash: string, at: int): Event {
    Event(at, Request(Plain(hash), scope))
  }

  /** The entry has counted n, and session A, which registered it at time 0, has not moved since. */
  ghost predicate CountedTo(cfg: Config, st: Store, n: nat) {
    var key := cfg.StorageKey("", "x");
    && key in st.entries && st.entries[key].value.hitCount == n && st.entries[key].expires == cfg.TTL(n)
    && "A" in st.sessions && st.sessions["A"].expires == cfg.prefixTTL
    && st.sessions["A"].value.modelID == "m" && st.sessions["A"].value.prefixHash == "x"
  }

  lemma CountedOnce(cfg: Config)
    requires cfg.Valid() && cfg.hotThreshold > 1
    ensures CountedTo(cfg, Register(cfg, EMPTY, 0, By("A", "x", 0).request).0, 1)
  {
    TrimmedStays("x");
    TrimmedStays("A");
  }

  lemma CountedOnceMore(cfg: Config, st: Store, n: nat)
    requires cfg.Valid() && CountedTo(cfg, st, n)
    ensures CountedTo(cfg, Register(cfg, st, 0, By("B", "x", 0).request).0, n + 1)
  {
    TrimmedStays("x");
    TrimmedStays("B");
    assert cfg.TTL(n) > 0;
  }

  /** After session A once and session B n times, all at time 0. */
  lemma {:induction false} BurstAfterOne(cfg: Config, n: nat)
    requires cfg.Valid() && cfg.hotThreshold > 1
    ensures CountedTo(cfg, After(cfg, [By("A", "x", 0)] + Burst(n, By("B", "x", 0))), n + 1)
  {
    var one := [By("A", "x", 0)];
    if n == 0 {
      AfterOne(cfg, By("A", "x", 0));
      CountedOnce(cfg);
      assert one + Burst(0, By("B", "x", 0)) == one;
    } else {
      BurstAfterOne(cfg, n - 1);
      AfterBurst(cfg, one, n, By("B", "x", 0));
      CountedOnceMore(cfg, After(cfg, one + Burst(n - 1, By("B", "x", 0))), n);
    }
  }

  /** The run that exposes an unsteady configuration: the hot entry is gone while session A is still live. */
  function ExpiryRun(cfg: Config): seq<Event>
    requires cfg.hotThreshold > 1
  {
    [By("A", "x", 0)] + Burst(cfg.hotThreshold - 1, By("B", "x", 0)) + [By("A", "x", cfg.hotTTL)]
  }

  lemma ExpiryRunIsFair(cfg: Config)
    requires cfg.Valid() && cfg.hotThreshold > 1
    ensures Ordered(ExpiryRun(cfg)) && ScopesTied(ExpiryRun(cfg))
  {
    assert forall ev :: ev in ExpiryRun(cfg) ==> ev.request.entry.namespace == "";
  }

  lemma ReturnsTooLate(cfg: Config, st: Store)
    requires cfg.Valid() && !Steady(cfg) && CountedTo(cfg, st, cfg.hotThreshold)
    ensures var report := Register(cfg, st, cfg.hotTTL, By("A", "x", cfg.hotTTL).request).1;
      report.Registered? && report.missReason == "ttl_expired"
  {
    TrimmedStays("x");
    TrimmedStays("A");
    ExpiryReportedExactly(cfg, st, cfg.hotTTL, By("A", "x", cfg.hotTTL).request);
  }

  lemma UnsteadyReportsExpiry(cfg: Config)
    requires cfg.Valid() && !Steady(cfg)
    ensures ReportsExpiry(cfg, ExpiryRun(cfg))
  {
    var events := ExpiryRun(cfg);
    var i := |events| - 1;
    BurstAfterOne(cfg, cfg.hotThreshold - 1);
    assert events[..i] == [By("A", "x", 0)] + Burst(cfg.hotThreshold - 1, By("B", "x", 0));
    ReturnsTooLate(cfg, After(cfg, events[..i]));
    assert ExpiryAt(cfg, events, i);
  }

  /** Sequential runs are free of ttl_expired exactly when the configuration is steady. */
  lemma NoExpiryReportsExactly(cfg: Config)
    requires cfg.Valid()
    ensures Steady(cfg) <==> forall events :: Ordered(events) && ScopesTied(events) ==> !ReportsExpiry(cfg, events)
  {
    if Steady(cfg) {
      forall events | Ordered(events) && ScopesTied(events)
        ensures !ReportsExpiry(cfg, events)
      {
        SteadyNeverReportsExpiry(cfg, events);
      }
    } else {
      ExpiryRunIsFair(cfg);
      UnsteadyReportsExpiry(cfg);
    }
  }

  // ----- hit counts -----

  /** Registrations of a key since the last one that reported it created, counted from the end of the run. */
  function Streak(cfg: Config, events: seq<Event>, key: string): nat {
    if events == [] then 0
    else
      var n := |events| - 1;
      var r := events[n].request;
      var report := Report(cfg, events, n);
      if report.Rejected? || cfg.StorageKey(r.entry.namespace, r.entry.prefixHash) != key then
        Streak(cfg, events[..n], key)
      else if report.result == "created" then 1
      else Streak(cfg, events[..n], key) + 1
  }

  /** An entry's hit count is the number of registrations since it was created, and it is hot exactly from the
      threshold on. */
  lemma {:induction false} HitCountIsStreak(cfg: Config, events: seq<Event>, key: string)
    requires key in After(cfg, events).entries
    ensures var e := After(cfg, events).entries[key].value;
      e.hitCount == Streak(cfg, events, key) >= 1 && (e.hot <==> Streak(cfg, events, key) >= cfg.hotThreshold)
  {
    var n := |events| - 1;
    var r := events[n].request;
    var st := After(cfg, events[..n]);
    if key in st.entries {
      HitCountIsStreak(cfg, events[..n], key);
    }
    assert Report(cfg, events, n) == Register(cfg, st, events[n].at, r).1;
  }

  // ----- hot scores -----

  /** In front of a colon-free text the last colon stands where it was put. */
  lemma LastColon(n: string, h: string)
    requires ':' !in h
    ensures var s := n + ":" + h; s[|n|] == ':' && forall k :: |n| < k < |s| ==> s[k] != ':'
  {
    forall k | |n| < k < |n + ":" + h|
      ensures (n + ":" + h)[k] != ':'
    {
      assert (n + ":" + h)[k] == h[k - |n| - 1] && h[k - |n| - 1] in h;
    }
  }

  lemma StorageKeyInjective(cfg: Config, n1: string, h1: string, n2: string, h2: string)
    requires ':' !in h1 && ':' !in h2
    requires cfg.StorageKey(n1, h1) == cfg.StorageKey(n2, h2)
    ensures h1 == h2 && HotKey(n1) == HotKey(n2)
  {
    var front := cfg.keyPrefix + ":prefix:";
    var s1 := if Blank(n1) then h1 else n1 + ":" + h1;
    var s2 := if Blank(n2) then h2 else n2 + ":" + h2;
    assert s1 == cfg.StorageKey(n1, h1)[|front|..] && s2 == cfg.StorageKey(n2, h2)[|front|..];
    LastColon(n1, h1);
    LastColon(n2, h2);
    if !Blank(n1) {
      assert s1[|n1|] == ':';
    }
    if !Blank(n2) {
      assert s2[|n2|] == ':';
    }
    if !Blank(n1) && !Blank(n2) {
      assert s1[..|n1|] == n1 && s1[|n1| + 1..] == h1;
      assert s2[..|n2|] == n2 && s2[|n2| + 1..] == h2;
    }
  }

  /** Every entry gets the same TTL, hot or not. */
  predicate Uniform(cfg: Config) {
    cfg.hotTTL == cfg.prefixTTL || cfg.hotThreshold <= 1
  }

  /** The hot set outlives the entry and has counted every one of its registrations. */
  ghost predicate Scored(cfg: Config, st: Store, now: int, key: string, record: Timed<Entry>) {
    var e := record.value;
    var hotKey := HotKey(e.namespace);
    && ':' !in e.prefixHash && key == cfg.StorageKey(e.namespace, e.prefixHash)
    && record.expires <= now + cfg.hotTTL
    && hotKey in st.hotSets && record.expires <= st.hotSets[hotKey].expires
    && (record.Live(now) ==>
          e.prefixHash in st.hotSets[hotKey].value && e.hitCount <= st.hotSets[hotKey].value[e.prefixHash])
  }

  ghost predicate AllScored(cfg: Config, st: Store, now: int) {
    forall key :: key in st.entries ==> Scored(cfg, st, now, key, st.entries[key])
  }

  lemma OtherEntryStaysScored(cfg: Config, st: Store, before: int, now: int, r: Request, key: string,
                              record: Timed<Entry>)
    requires cfg.Valid() && Uniform(cfg) && before <= now
    requires Scored(cfg, st, before, key, record)
    ensures Scored(cfg, Register(cfg, st, now, r).0, now, key, record)
  {
    if !Blank(r.entry.prefixHash) {
      var e := Admit(cfg, now, r, LoadStep(cfg, st, now, r));
      assert Register(cfg, st, now, r).0.hotSets ==
        Bump(st.hotSets, HotKey(e.namespace), e.prefixHash, now, e.appliedTTL);
      assert e.hitCount >= 1 && e.appliedTTL == cfg.hotTTL;
    }
  }

  /** The entry just registered: its score has kept up with its hit count. */
  lemma NewEntryIsScored(cfg: Config, st: Store, before: int, now: int, r: Request)
    requires cfg.Valid() && Uniform(cfg) && before <= now && AllScored(cfg, st, before)
    requires !Blank(r.entry.prefixHash) && ':' !in r.entry.prefixHash
    ensures var (st', outcome) := Register(cfg, st, now, r);
      var key := cfg.StorageKey(r.entry.namespace, r.entry.prefixHash);
      && key in st'.entries && Scored(cfg, st', now, key, st'.entries[key])
      && outcome.Registered? && outcome.entry.hitCount <= outcome.hotScore
  {
    var key := cfg.StorageKey(r.entry.namespace, r.entry.prefixHash);
    var seen := LoadStep(cfg, st, now, r);
    var e := Admit(cfg, now, r, seen);
    assert e.namespace == r.entry.namespace && e.prefixHash == r.entry.prefixHash;
    assert e.hitCount >= 1 && e.appliedTTL == cfg.hotTTL;
    if seen.found {
      var record := st.entries[key];
      assert Scored(cfg, st, before, key, record);
      StorageKeyInjective(cfg, record.value.namespace, record.value.prefixHash, e.namespace, e.prefixHash);
    }
  }

  ghost predicate ColonFreeHashes(events: seq<Event>) {
    forall ev :: ev in events ==> ':' !in ev.request.entry.prefixHash
  }

  lemma RegisterKeepsScored(cfg: Config, st: Store, before: int, now: int, r: Request)
    requires cfg.Valid() && Uniform(cfg) && before <= now && AllScored(cfg, st, before)
    requires ':' !in r.entry.prefixHash
    ensures AllScored(cfg, Register(cfg, st, now, r).0, now)
  {
    var st' := Register(cfg, st, now, r).0;
    if !Blank(r.entry.prefixHash) {
      NewEntryIsScored(cfg, st, before, now, r);
    }
    forall key | key in st'.entries
      ensures Scored(cfg, st', now, key, st'.entries[key])
    {
      if key in st.entries && st'.entries[key] == st.entries[key] {
        OtherEntryStaysScored(cfg, st, before, now, r, key, st.entries[key]);
      }
    }
  }

  lemma {:induction false} RunKeepsScored(cfg: Config, events: seq<Event>, now: int)
    requires cfg.Valid() && Uniform(cfg) && Ordered(events) && ColonFreeHashes(events)
    requires events != [] ==> events[|events| - 1].at <= now
    ensures AllScored(cfg, After(cfg, events), now)
  {
    if events != [] {
      var init, last := events[..|events| - 1], events[|events| - 1];
      assert last in events;
      RunKeepsScored(cfg, init, now);
      RunKeepsScored(cfg, init, last.at);
      RegisterKeepsScored(cfg, After(cfg, init), last.at, last.at, last.request);
      LaterScored(cfg, After(cfg, events), last.at, now);
    }
  }

  lemma LaterScored(cfg: Config, st: Store, before: int, now: int)
    requires before <= now && AllScored(cfg, st, before)
    ensures AllScored(cfg, st, now)
  {
    forall key | key in st.entries
      ensures Scored(cfg, st, now, key, st.entries[key])
    {
      assert Scored(cfg, st, before, key, st.entries[key]);
    }
  }

  ghost predicate ScoresKeepUp(cfg: Config, events: seq<Event>) {
    forall i :: 0 <= i < |events| && Report(cfg, events, i).Registered? ==>
      Report(cfg, events, i).entry.hitCount <= Report(cfg, events, i).hotScore
  }

  lemma UniformScoresKeepUp(cfg: Config, events: seq<Event>)
    requires cfg.Valid() && Uniform(cfg) && Ordered(events) && ColonFreeHashes(events)
    ensures ScoresKeepUp(cfg, events)
  {
    forall i | 0 <= i < |events| && Report(cfg, events, i).Registered?
      ensures Report(cfg, events, i).entry.hitCount <= Report(cfg, events, i).hotScore
    {
      assert events[i] in events;
      RunKeepsScored(cfg, events[..i], events[i].at);
      NewEntryIsScored(cfg, After(cfg, events[..i]), events[i].at, events[i].at, events[i].request);
    }
  }

  // Two entries in one namespace: "y" registered once, then "x" n times, all at time 0.

  ghost predicate Beside(cfg: Config, st: Store, n: nat) {
    var x, y := cfg.StorageKey("", "x"), cfg.StorageKey("", "y");
    && cfg.StorageKey("", "z") !in st.entries
    && (if n == 0 then x !in st.entries
        else x in st.entries && st.entries[x].value.hitCount == n && st.entries[x].expires == cfg.TTL(n))
    && y in st.entries && st.entries[y].value.hitCount == 1 && st.entries[y].expires == cfg.prefixTTL
    && "global" in st.hotSets && st.hotSets["global"].expires == (if n == 0 then cfg.prefixTTL else cfg.TTL(n))
  }

  lemma KeysDiffer(cfg: Config, a: string, b: string)
    requires a != b && ':' !in a && ':' !in b
    ensures cfg.StorageKey("", a) != cfg.StorageKey("", b)
  {
    if cfg.StorageKey("", a) == cfg.StorageKey("", b) {
      StorageKeyInjective(cfg, "", a, "", b);
    }
  }

  lemma OneMoreBeside(cfg: Config, st: Store, n: nat)
    requires cfg.Valid() && Beside(cfg, st, n)
    ensures Beside(cfg, Register(cfg, st, 0, By("B", "x", 0).request).0, n + 1)
  {
    TrimmedStays("x");
    KeysDiffer(cfg, "x", "y");
    KeysDiffer(cfg, "x", "z");
    assert cfg.TTL(n) > 0;
    var r := By("B", "x", 0).request;
    var e := Admit(cfg, 0, r, LoadStep(cfg, st, 0, r));
    assert e.hitCount == n + 1 && e.appliedTTL == cfg.TTL(n + 1);
  }

  lemma NoneBeside(cfg: Config)
    requires cfg.Valid() && cfg.hotThreshold > 1
    ensures Beside(cfg, Register(cfg, EMPTY, 0, By("A", "y", 0).request).0, 0)
  {
    TrimmedStays("y");
    KeysDiffer(cfg, "x", "y");
    KeysDiffer(cfg, "y", "z");
  }

  lemma {:induction false} BurstBeside(cfg: Config, n: nat)
    requires cfg.Valid() && cfg.hotThreshold > 1
    ensures Beside(cfg, After(cfg, [By("A", "y", 0)] + Burst(n, By("B", "x", 0))), n)
  {
    var one := [By("A", "y", 0)];
    if n == 0 {
      AfterOne(cfg, By("A", "y", 0));
      NoneBeside(cfg);
      assert one + Burst(0, By("B", "x", 0)) == one;
    } else {
      BurstBeside(cfg, n - 1);
      AfterBurst(cfg, one, n, By("B", "x", 0));
      OneMoreBeside(cfg, After(cfg, one + Burst(n - 1, By("B", "x", 0))), n - 1);
    }
  }

  /** A hit on a live entry whose hot set is gone starts the score again at 1. */
  lemma HitAfterSetExpired(cfg: Config, st: Store, ev: Event, key: string)
    requires key == cfg.StorageKey(ev.request.entry.namespace, ev.request.entry.prefixHash)
    requires !Blank(ev.request.entry.prefixHash)
    requires key in st.entries && st.entries[key].Live(ev.at) && st.entries[key].value.hitCount >= 1
    requires var hotKey := HotKey(ev.request.entry.namespace); hotKey in st.hotSets && !st.hotSets[hotKey].Live(ev.at)
    ensures var report := Register(cfg, st, ev.at, ev.request).1;
      report.Registered? && report.entry.hitCount > report.hotScore == 1
  {
    var seen := LoadStep(cfg, st, ev.at, ev.request);
    var e := Admit(cfg, ev.at, ev.request, seen);
    assert e.hitCount == st.entries[key].value.hitCount + 1;
  }

  /** The run that exposes a non-uniform configuration. */
  function ScoreRun(cfg: Config): seq<Event>
    requires cfg.hotThreshold > 1
  {
    var front := [By("A", "y", 0)] + Burst(cfg.hotThreshold, By("B", "x", 0));
    if cfg.hotTTL < cfg.prefixTTL then front + [By("A", "y", cfg.hotTTL)]
    else front + [By("C", "z", 0)] + [By("B", "x", cfg.prefixTTL)]
  }

  lemma ScoreRunIsFair(cfg: Config)
    requires cfg.Valid() && cfg.hotThreshold > 1
    ensures Ordered(ScoreRun(cfg)) && ColonFreeHashes(ScoreRun(cfg))
  {
    assert forall ev :: ev in ScoreRun(cfg) ==> ev.request.entry.prefixHash in {"x", "y", "z"};
  }

  lemma LatecomerShortensSet(cfg: Config, st: Store, n: nat)
    requires cfg.Valid() && cfg.hotThreshold > 1 && n > 0 && Beside(cfg, st, n)
    ensures var st' := Register(cfg, st, 0, By("C", "z", 0).request).0;
      var x := cfg.StorageKey("", "x");
      && x in st'.entries && st'.entries[x] == st.entries[x]
      && "global" in st'.hotSets && st'.hotSets["global"].expires == cfg.prefixTTL
  {
    TrimmedStays("z");
    KeysDiffer(cfg, "x", "z");
    var r := By("C", "z", 0).request;
    var e := Admit(cfg, 0, r, LoadStep(cfg, st, 0, r));
    assert e.hitCount == 1;
  }

  lemma NonUniformScoreFallsBehind(cfg: Config)
    requires cfg.Valid() && !Uniform(cfg)
    ensures !ScoresKeepUp(cfg, ScoreRun(cfg))
  {
    var thr := cfg.hotThreshold;
    var front := [By("A", "y", 0)] + Burst(thr, By("B", "x", 0));
    var events := ScoreRun(cfg);
    var i := |events| - 1;
    var st := After(cfg, front);
    BurstBeside(cfg, thr);
    TrimmedStays("x");
    TrimmedStays("y");
    if cfg.hotTTL < cfg.prefixTTL {
      assert events[..i] == front;
      HitAfterSetExpired(cfg, st, events[i], cfg.StorageKey("", "y"));
    } else {
      var front2 := front + [By("C", "z", 0)];
      assert events[..i] == front2;
      assert front2[..|front2| - 1] == front;
      LatecomerShortensSet(cfg, st, thr);
      HitAfterSetExpired(cfg, After(cfg, front2), events[i], cfg.StorageKey("", "x"));
    }
    assert Report(cfg, events, i).Registered? &&
      Report(cfg, events, i).entry.hitCount > Report(cfg, events, i).hotScore;
  }

  /** In sequential runs the hot score keeps up with the hit count exactly when every entry gets the same TTL. */
  lemma ScoresKeepUpExactly(cfg: Config)
    requires cfg.Valid()
    ensures Uniform(cfg) <==> forall events :: Ordered(events) && ColonFreeHashes(events) ==> ScoresKeepUp(cfg, events)
  {
    if Uniform(cfg) {
      forall events | Ordered(events) && ColonFreeHashes(events)
        ensures ScoresKeepUp(cfg, events)
      {
        UniformScoresKeepUp(cfg, events);
      }
    } else {
      ScoreRunIsFair(cfg);
      NonUniformScoreFallsBehind(cfg);
    }
  }

  // ----- any interleaving of load and write steps -----

  datatype Pending = Pending(at: int, request: Request, seen: Snapshot)

  /** The shared store, what each client has loaded but not yet written, and how often each key has been written. */
  datatype Shared = Shared(store: Store, pending: map<nat, Pending>, writes: map<string, nat>)

  function Writes(s: Shared, key: string): nat {
    if key in s.writes then s.writes[key] else 0
  }

  datatype Step = LoadBy(client: nat, at: int, request: Request) | WriteBy(client: nat)

  function KeyOf(cfg: Config, r: Request): string {
    cfg.StorageKey(r.entry.namespace, r.entry.prefixHash)
  }

  function Advance(cfg: Config, s: Shared, step: Step): Shared {
    match step
    case LoadBy(c, at, r) =>
      if Blank(r.entry.prefixHash) then s
      else s.(pending := s.pending[c := Pending(at, r, LoadStep(cfg, s.store, at, r))])
    case WriteBy(c) =>
      if c !in s.pending then s
      else
        var p := s.pending[c];
        var key := KeyOf(cfg, p.request);
        Shared(WriteStep(cfg, s.store, p.at, p.request, p.seen).0, s.pending - {c}, s.writes[key := Writes(s, key) + 1])
  }

  function AdvanceAll(cfg: Config, steps: seq<Step>): Shared {
    if steps == [] then Shared(EMPTY, map[], map[])
    else Advance(cfg, AdvanceAll(cfg, steps[..|steps| - 1]), steps[|steps| - 1])
  }

  /** A load directly followed by its write is one registration. */
  lemma LoadThenWriteIsRegister(cfg: Config, s: Shared, c: nat, at: int, r: Request)
    requires !Blank(r.entry.prefixHash)
    ensures Advance(cfg, Advance(cfg, s, LoadBy(c, at, r)), WriteBy(c)).store == Register(cfg, s.store, at, r).0
  {}

  ghost predicate Bounded(cfg: Config, s: Shared) {
    && (forall key :: key in s.store.entries ==> s.store.entries[key].value.hitCount <= Writes(s, key))
    && (forall c :: c in s.pending && s.pending[c].seen.found ==>
          s.pending[c].seen.current.hitCount <= Writes(s, KeyOf(cfg, s.pending[c].request)))
  }

  lemma AdvanceKeepsBounded(cfg: Config, s: Shared, step: Step)
    requires Bounded(cfg, s)
    ensures Bounded(cfg, Advance(cfg, s, step))
  {
    var s' := Advance(cfg, s, step);
    assert forall key :: Writes(s, key) <= Writes(s', key);
    if step.WriteBy? && step.client in s.pending {
      var p := s.pending[step.client];
      var e := Admit(cfg, p.at, p.request, p.seen);
      assert e.hitCount <= Writes(s, KeyOf(cfg, p.request)) + 1;
      assert KeyOf(cfg, p.request) == cfg.StorageKey(e.namespace, e.prefixHash);
    }
  }

  /** Under any interleaving no hit count exceeds the completed writes of its key. */
  lemma {:induction false} HitCountAtMostWrites(cfg: Config, steps: seq<Step>)
    ensures Bounded(cfg, AdvanceAll(cfg, steps))
  {
    if steps != [] {
      HitCountAtMostWrites(cfg, steps[..|steps| - 1]);
      AdvanceKeepsBounded(cfg, AdvanceAll(cfg, steps[..|steps| - 1]), steps[|steps| - 1]);
    }
  }
}
