/** The namespace of a request and the session scope that is built on it, and what a bar in their parts does. */
module PrefixScope {
  import opened Text
  import opened Seqs
  import opened Content
  import opened Options
  import opened Prompt
  import opened PrefixRegistry
  import opened MissBlame

  datatype NamespaceConfig = NamespaceConfig(includeTenant: bool, includePolicy: bool, includeModel: bool)

  /** What the prefix cache knows of one request; the tenant is the resolved one. */
  datatype Caller = Caller(at: int, tenant: string, policy: string, session: string, modelName: string,
                           messages: seq<Message>, chunks: seq<Chunk>)

  function FirstNonBlank(value: string, otherwise: string): string {
    if Blank(value) then otherwise else TrimSpace(value)
  }

  function NamespaceParts(c: NamespaceConfig, tenant: string, policy: string, modelID: string): seq<string> {
    (if c.includeTenant then ["tenant=" + FirstNonBlank(tenant, "global")] else [])
      + (if c.includePolicy then ["policy=" + FirstNonBlank(policy, "default")] else [])
      + (if c.includeModel then ["model=" + FirstNonBlank(modelID, "unknown")] else [])
  }

  /** BuildPrefixNamespace. */
  function NamespaceOf(c: NamespaceConfig, caller: Caller): string {
    var parts := NamespaceParts(c, caller.tenant, caller.policy, ModelID(caller.modelName));
    if parts == [] then "global" else Join(parts, "|")
  }

  function ScopeOf(c: NamespaceConfig, caller: Caller): string {
    NamespaceOf(c, caller) + "|" + caller.session
  }

  /** The registration of a request. */
  function TurnOf(c: NamespaceConfig, caller: Caller): Turn {
    Turn(caller.at, ScopeOf(c, caller), NamespaceOf(c, caller), caller.modelName, caller.messages, caller.chunks)
  }

  function TurnsOf(c: NamespaceConfig, callers: seq<Caller>): seq<Turn> {
    seq(|callers|, i requires 0 <= i < |callers| => TurnOf(c, callers[i]))
  }

  // ----- two requests with one scope -----

  /** The namespace of b goes on where that of a ends, with the front of a's session. */
  ghost predicate Straddles(c: NamespaceConfig, a: Caller, b: Caller) {
    exists front: string :: StraddlesBy(c, a, b, front)
  }

  predicate StraddlesBy(c: NamespaceConfig, a: Caller, b: Caller, front: string) {
    NamespaceOf(c, b) == NamespaceOf(c, a) + "|" + front && a.session == front + "|" + b.session
  }

  lemma LongerStraddles(c: NamespaceConfig, a: Caller, b: Caller)
    requires ScopeOf(c, a) == ScopeOf(c, b) && |NamespaceOf(c, a)| < |NamespaceOf(c, b)|
    ensures Straddles(c, a, b)
  {
    var scope, m, n := ScopeOf(c, a), |NamespaceOf(c, a)|, |NamespaceOf(c, b)|;
    var front := scope[m + 1..n];
    assert scope[m] == '|' && scope[n] == '|';
    assert scope[..m] == NamespaceOf(c, a) && scope[..n] == NamespaceOf(c, b);
    assert scope[m + 1..] == a.session && scope[n + 1..] == b.session;
    assert scope[..n] == scope[..m] + "|" + front;
    assert scope[m + 1..] == front + "|" + scope[n + 1..];
    assert StraddlesBy(c, a, b, front);
  }

  lemma StraddlingShares(c: NamespaceConfig, a: Caller, b: Caller)
    requires Straddles(c, a, b)
    ensures ScopeOf(c, a) == ScopeOf(c, b) && NamespaceOf(c, a) != NamespaceOf(c, b)
  {
    var front :| StraddlesBy(c, a, b, front);
    var namespace := NamespaceOf(c, a);
    assert namespace + "|" + (front + "|" + b.session) == namespace + "|" + front + "|" + b.session;
  }

  lemma FrontTells(a: string, s: string, b: string, t: string)
    ensures a + s == b + t && |a| == |b| ==> a == b
  {
    assert a == (a + s)[..|a|] && b == (b + t)[..|b|];
  }

  /** Two requests share a scope under different namespaces exactly when one of them straddles the other. */
  lemma SharedScopeExactly(c: NamespaceConfig, a: Caller, b: Caller)
    ensures ScopeOf(c, a) == ScopeOf(c, b) && NamespaceOf(c, a) != NamespaceOf(c, b)
      <==> Straddles(c, a, b) || Straddles(c, b, a)
  {
    var m, n := NamespaceOf(c, a), NamespaceOf(c, b);
    if ScopeOf(c, a) == ScopeOf(c, b) {
      FrontTells(m, "|" + a.session, n, "|" + b.session);
      Assoc(m, "|", a.session);
      Assoc(n, "|", b.session);
      if |m| < |n| {
        LongerStraddles(c, a, b);
      } else if |n| < |m| {
        LongerStraddles(c, b, a);
      }
    }
    if Straddles(c, a, b) {
      StraddlingShares(c, a, b);
    }
    if Straddles(c, b, a) {
      StraddlingShares(c, b, a);
    }
  }

  lemma ScopeShows(c: NamespaceConfig, caller: Caller)
    ensures !Blank(ScopeOf(c, caller))
  {
    var scope := ScopeOf(c, caller);
    assert scope[|NamespaceOf(c, caller)|] == '|';
    EraseMember(scope, '|');
    EraseTrim(scope);
  }

  ghost predicate NoneStraddle(c: NamespaceConfig, callers: seq<Caller>) {
    forall a, b :: a in callers && b in callers ==> !Straddles(c, a, b)
  }

  function EventBy(p: Prompter, c: NamespaceConfig, caller: Caller): Event {
    EventOf(p, TurnOf(c, caller))
  }

  predicate PairTied(a: Event, b: Event) {
    SameSession(a, b) ==> a.request.entry.namespace == b.request.entry.namespace
  }

  lemma PairTiedExactly(p: Prompter, c: NamespaceConfig, a: Caller, b: Caller)
    ensures PairTied(EventBy(p, c, a), EventBy(p, c, b)) <==> !Straddles(c, a, b) && !Straddles(c, b, a)
  {
    ScopeShows(c, a);
    SharedScopeExactly(c, a, b);
  }

  lemma EventAt(p: Prompter, c: NamespaceConfig, callers: seq<Caller>, i: nat)
    requires i < |callers|
    ensures |EventsOf(p, TurnsOf(c, callers))| == |callers|
    ensures EventsOf(p, TurnsOf(c, callers))[i] == EventBy(p, c, callers[i])
  {}

  lemma TiedPair(events: seq<Event>, i: nat, j: nat)
    requires ScopesTied(events) && i < |events| && j < |events|
    ensures PairTied(events[i], events[j])
  {}

  lemma TiedDoNotStraddle(p: Prompter, c: NamespaceConfig, callers: seq<Caller>, a: Caller, b: Caller)
    requires ScopesTied(EventsOf(p, TurnsOf(c, callers))) && a in callers && b in callers
    ensures !Straddles(c, a, b)
  {
    var i :| 0 <= i < |callers| && callers[i] == a;
    var j :| 0 <= j < |callers| && callers[j] == b;
    EventAt(p, c, callers, i);
    EventAt(p, c, callers, j);
    TiedPair(EventsOf(p, TurnsOf(c, callers)), i, j);
    PairTiedExactly(p, c, a, b);
  }

  lemma TiedByPairs(events: seq<Event>)
    requires forall i: nat, j: nat :: i < |events| && j < |events| ==> PairTied(events[i], events[j])
    ensures ScopesTied(events)
  {
    forall i, j | 0 <= i < |events| && 0 <= j < |events| && SameSession(events[i], events[j])
      ensures events[i].request.entry.namespace == events[j].request.entry.namespace
    {
      assert PairTied(events[i], events[j]);
    }
  }

  lemma WithoutStraddlingTied(p: Prompter, c: NamespaceConfig, callers: seq<Caller>)
    requires NoneStraddle(c, callers)
    ensures ScopesTied(EventsOf(p, TurnsOf(c, callers)))
  {
    var events := EventsOf(p, TurnsOf(c, callers));
    forall i: nat, j: nat | i < |events| && j < |events|
      ensures PairTied(events[i], events[j])
    {
      EventAt(p, c, callers, i);
      EventAt(p, c, callers, j);
      assert callers[i] in callers && callers[j] in callers;
      PairTiedExactly(p, c, callers[i], callers[j]);
    }
    TiedByPairs(events);
  }

  /** In the runs of the prefix-cache processor every scope belongs to one namespace exactly when no request straddles
      another. */
  lemma ScopesTiedExactly(p: Prompter, c: NamespaceConfig, callers: seq<Caller>)
    ensures ScopesTied(EventsOf(p, TurnsOf(c, callers))) <==> NoneStraddle(c, callers)
  {
    if ScopesTied(EventsOf(p, TurnsOf(c, callers))) {
      forall a, b | a in callers && b in callers
        ensures !Straddles(c, a, b)
      {
        TiedDoNotStraddle(p, c, callers, a, b);
      }
    }
    if NoneStraddle(c, callers) {
      WithoutStraddlingTied(p, c, callers);
    }
  }

  // ----- callers without bars -----

  function Bars(s: string): nat {
    if s == "" then 0 else (if s[0] == '|' then 1 else 0) + Bars(s[1..])
  }

  lemma {:induction false} BarsAppend(a: string, b: string)
    ensures Bars(a + b) == Bars(a) + Bars(b)
  {
    if a == "" {
      assert a + b == b;
    } else {
      assert (a + b)[1..] == a[1..] + b;
      BarsAppend(a[1..], b);
    }
  }

  lemma {:induction false} NoBars(s: string)
    requires '|' !in s
    ensures Bars(s) == 0
  {
    if s != "" {
      NoBars(s[1..]);
    }
  }

  lemma {:induction false} JoinedBars(parts: seq<string>)
    requires forall part :: part in parts ==> '|' !in part
    ensures Bars(Join(parts, "|")) == if parts == [] then 0 else |parts| - 1
  {
    if parts != [] {
      assert parts[0] in parts && forall part :: part in parts[1..] ==> part in parts;
      NoBars(parts[0]);
      JoinedBars(parts[1..]);
      if |parts| > 1 {
        BarsAppend(parts[0] + "|", Join(parts[1..], "|"));
        BarsAppend(parts[0], "|");
        assert Bars("|") == 1 by { assert "|"[1..] == ""; }
      }
    }
  }

  lemma FirstNonBlankMember(value: string, otherwise: string)
    requires '|' !in value && '|' !in otherwise
    ensures '|' !in FirstNonBlank(value, otherwise)
  {
    TrimLeftFacts(value);
    TrimRightFacts(TrimLeft(value));
  }

  /** The parts of the namespace hold no bar. */
  predicate PlainNames(caller: Caller) {
    '|' !in caller.tenant && '|' !in caller.policy && '|' !in caller.modelName
  }

  predicate PlainSession(caller: Caller) {
    '|' !in caller.session
  }

  function CountParts(c: NamespaceConfig): nat {
    (if c.includeTenant then 1 else 0) + (if c.includePolicy then 1 else 0) + (if c.includeModel then 1 else 0)
  }

  lemma PlainBars(c: NamespaceConfig, caller: Caller)
    requires PlainNames(caller)
    ensures Bars(NamespaceOf(c, caller)) == if CountParts(c) == 0 then 0 else CountParts(c) - 1
  {
    FirstNonBlankMember(caller.tenant, "global");
    FirstNonBlankMember(caller.policy, "default");
    FirstNonBlankMember(caller.modelName, "unknown");
    FirstNonBlankMember(ModelID(caller.modelName), "unknown");
    var parts := NamespaceParts(c, caller.tenant, caller.policy, ModelID(caller.modelName));
    JoinedBars(parts);
    NoBars("global");
  }

  lemma StraddlingHasBars(c: NamespaceConfig, a: Caller, b: Caller)
    requires Straddles(c, a, b)
    ensures !PlainSession(a) && Bars(NamespaceOf(c, b)) > Bars(NamespaceOf(c, a))
  {
    var front :| StraddlesBy(c, a, b, front);
    assert a.session[|front|] == '|';
    BarsAppend(NamespaceOf(c, a) + "|", front);
    BarsAppend(NamespaceOf(c, a), "|");
    assert Bars("|") == 1 by { assert "|"[1..] == ""; }
  }

  /** Bar-free sessions, or bar-free tenants, policies and models, keep every scope to one namespace. */
  lemma PlainCallersDoNotStraddle(c: NamespaceConfig, callers: seq<Caller>)
    requires (forall a :: a in callers ==> PlainSession(a)) || (forall a :: a in callers ==> PlainNames(a))
    ensures NoneStraddle(c, callers)
  {
    forall a, b | a in callers && b in callers
      ensures !Straddles(c, a, b)
    {
      if PlainNames(a) && PlainNames(b) {
        PlainBars(c, a);
        PlainBars(c, b);
      }
      if Straddles(c, a, b) {
        StraddlingHasBars(c, a, b);
      }
    }
  }

  /** With a steady registry and callers of either kind, an ordered run of the prefix-cache processor never reports
      ttl_expired. */
  lemma PlainCallersNeverExpire(p: Prompter, cfg: Config, c: NamespaceConfig, callers: seq<Caller>)
    requires cfg.Valid() && Steady(cfg) && forall i, j :: 0 <= i < j < |callers| ==> callers[i].at <= callers[j].at
    requires (forall a :: a in callers ==> PlainSession(a)) || (forall a :: a in callers ==> PlainNames(a))
    ensures !ReportsExpiry(cfg, EventsOf(p, TurnsOf(c, callers)))
  {
    PlainCallersDoNotStraddle(c, callers);
    ScopesTiedExactly(p, c, callers);
    SteadyNeverReportsExpiry(cfg, EventsOf(p, TurnsOf(c, callers)));
  }

  // ----- a bar in a name and in a session -----

  lemma OneEntry(cfg: Config, now: int, r: Request, s: Request)
    requires cfg.Valid() && !Blank(r.entry.prefixHash) && !Blank(s.entry.prefixHash)
    requires cfg.StorageKey(s.entry.namespace, s.entry.prefixHash)
      != cfg.StorageKey(r.entry.namespace, r.entry.prefixHash)
    ensures var (st, report) := Register(cfg, EMPTY, now, r);
      !LoadStep(cfg, st, now, s).found && report.Registered? && report.entry.appliedTTL > 0
  {}

  lemma NamespacesTell(cfg: Config, a: string, b: string, hash: string)
    requires a != b && !Blank(a) && !Blank(b)
    ensures cfg.StorageKey(a, hash) != cfg.StorageKey(b, hash)
  {
    var front := cfg.keyPrefix + ":prefix:";
    SuffixTells(a, b, ":" + hash);
    assert (front + (a + ":" + hash))[|front|..] == a + (":" + hash);
    assert (front + (b + ":" + hash))[|front|..] == b + (":" + hash);
    assert cfg.StorageKey(a, hash) == front + (a + ":" + hash) && cfg.StorageKey(b, hash) == front + (b + ":" + hash);
  }

  lemma SuffixTells(a: string, b: string, end: string)
    ensures a + end == b + end ==> a == b
  {
    if |a| == |b| {
      assert (a + end)[..|a|] == a && (b + end)[..|b|] == b;
    } else {
      assert |a + end| != |b + end|;
    }
  }

  /** Two turns at one moment with one scope and one prompt, under different namespaces. */
  lemma BorrowedScope(p: Prompter, cfg: Config, a: Turn, b: Turn)
    requires p.GoodHash() && cfg.Valid() && Registers(p, a) && Registers(p, b)
    requires a.at == b.at && a.scope == b.scope && !Blank(b.scope) && TurnIdentity(p, a) == TurnIdentity(p, b)
    requires a.namespace != b.namespace && !Blank(a.namespace) && !Blank(b.namespace)
    ensures var report := Report(cfg, EventsOf(p, [a, b]), 1);
      report.Registered? && report.result == "created" && report.missReason == "ttl_expired"
  {
    var turns := [a, b];
    var events := EventsOf(p, turns);
    assert turns[..1] == [a] && [a][..0] == [];
    EventsPrefix(p, turns, 1);
    assert EventsOf(p, [a]) == [EventOf(p, a)];
    AfterOne(cfg, EventOf(p, a));
    GoodHashShows(p, a);
    GoodHashShows(p, b);
    NamespacesTell(cfg, a.namespace, b.namespace, EventOf(p, a).request.entry.prefixHash);
    OneEntry(cfg, a.at, EventOf(p, a).request, EventOf(p, b).request);
    FoundIsHit(cfg, After(cfg, events[..1]), b.at, EventOf(p, b).request);
    RunsBlameExactly(p, cfg, turns, 1);
    assert LastBy(p, [a], b.scope) == Some(0);
    assert Report(cfg, EventsOf(p, [a]), 0) == Register(cfg, EMPTY, a.at, EventOf(p, a).request).1;
    assert LastRecord(p, cfg, [a], b.scope) == Some((TurnIdentity(p, a), RecordEnd(p, cfg, [a], 0)));
  }

  lemma NamespaceShows(c: NamespaceConfig, caller: Caller)
    ensures !Blank(NamespaceOf(c, caller))
  {
    var parts := NamespaceParts(c, caller.tenant, caller.policy, ModelID(caller.modelName));
    var namespace := NamespaceOf(c, caller);
    if parts == [] {
      TrimmedStays("global");
    } else {
      assert parts[0][0] in "tpm" && namespace[0] == parts[0][0];
      EraseMember(namespace, namespace[0]);
      EraseTrim(namespace);
    }
  }

  /** The same request, but for its caller. */
  predicate SameRequest(a: Caller, b: Caller) {
    a.at == b.at && a.modelName == b.modelName && a.messages == b.messages && a.chunks == b.chunks
  }

  lemma SamePrompt(p: Prompter, c: NamespaceConfig, a: Caller, b: Caller)
    requires SameRequest(a, b)
    ensures TurnIdentity(p, TurnOf(c, a)) == TurnIdentity(p, TurnOf(c, b)) && TurnOf(c, a).at == TurnOf(c, b).at
    ensures Registers(p, TurnOf(c, a)) <==> Registers(p, TurnOf(c, b))
  {}

  lemma TwoTurns(c: NamespaceConfig, a: Caller, b: Caller)
    ensures TurnsOf(c, [a, b]) == [TurnOf(c, a), TurnOf(c, b)]
  {}

  /** Where two callers straddle, one request of each at one moment is enough: the second one, whose prefix is new
      under its namespace, is told that it expired, whatever the lifetimes. */
  lemma StraddlingReportsExpiry(p: Prompter, cfg: Config, c: NamespaceConfig, a: Caller, b: Caller)
    requires p.GoodHash() && cfg.Valid() && Registers(p, TurnOf(c, a)) && SameRequest(a, b)
    requires Straddles(c, a, b) || Straddles(c, b, a)
    ensures var report := Report(cfg, EventsOf(p, TurnsOf(c, [a, b])), 1);
      report.Registered? && report.result == "created" && report.missReason == "ttl_expired"
  {
    SharedScopeExactly(c, a, b);
    NamespaceShows(c, a);
    NamespaceShows(c, b);
    ScopeShows(c, b);
    SamePrompt(p, c, a, b);
    TwoTurns(c, a, b);
    BorrowedScope(p, cfg, TurnOf(c, a), TurnOf(c, b));
  }

  function Rest(c: NamespaceConfig, policy: string, modelID: string): string {
    Join(NamespaceParts(c.(includeTenant := false), "", policy, modelID), "|")
  }

  /** The part of a namespace behind its tenant. */
  function Behind(c: NamespaceConfig, policy: string, modelID: string): string {
    var rest := Rest(c, policy, modelID);
    if c.includePolicy || c.includeModel then "|" + rest else ""
  }

  lemma TenantFirst(c: NamespaceConfig, caller: Caller)
    requires c.includeTenant && Trimmed(caller.tenant) && caller.tenant != ""
    ensures NamespaceOf(c, caller) == "tenant=" + caller.tenant + Behind(c, caller.policy, ModelID(caller.modelName))
  {
    var modelID := ModelID(caller.modelName);
    var rest := NamespaceParts(c.(includeTenant := false), "", caller.policy, modelID);
    TrimmedStays(caller.tenant);
    assert NamespaceParts(c, caller.tenant, caller.policy, modelID) == ["tenant=" + caller.tenant] + rest;
    assert (["tenant=" + caller.tenant] + rest)[1..] == rest;
  }

  /** The same request, by tenant "x" and by a tenant whose name spells the rest of that namespace. */
  function First(c: NamespaceConfig, t: Caller): Caller {
    t.(tenant := "x", session := "y" + Behind(c, t.policy, ModelID(t.modelName)) + "|z")
  }

  function Second(c: NamespaceConfig, t: Caller): Caller {
    t.(tenant := "x" + Behind(c, t.policy, ModelID(t.modelName)) + "|y", session := "z")
  }

  lemma Regroup(a: string, b: string, behind: string)
    ensures a + (b + behind + "|y") + behind == a + b + behind + "|" + ("y" + behind)
    ensures b + behind + "|z" == (b + behind) + "|" + "z"
  {}

  lemma TheyStraddle(c: NamespaceConfig, t: Caller)
    requires c.includeTenant
    ensures Straddles(c, First(c, t), Second(c, t))
  {
    var behind := Behind(c, t.policy, ModelID(t.modelName));
    TrimmedStays("x");
    TenantFirst(c, First(c, t));
    TenantFirst(c, Second(c, t));
    Regroup("tenant=", "x", behind);
    Regroup("", "y", behind);
    assert StraddlesBy(c, First(c, t), Second(c, t), "y" + behind);
  }

  /** Such callers exist wherever namespaces carry the tenant, for any policy and model. */
  lemma SomeStraddle(p: Prompter, cfg: Config, c: NamespaceConfig, t: Caller)
    requires p.GoodHash() && cfg.Valid() && c.includeTenant && Registers(p, TurnOf(c, t))
    ensures ReportsExpiry(cfg, EventsOf(p, TurnsOf(c, [First(c, t), Second(c, t)])))
  {
    var a, b := First(c, t), Second(c, t);
    TheyStraddle(c, t);
    SamePrompt(p, c, t, a);
    StraddlingReportsExpiry(p, cfg, c, a, b);
    assert ExpiryAt(cfg, EventsOf(p, TurnsOf(c, [a, b])), 1);
  }
}
