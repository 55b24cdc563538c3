/** Runs of registrations by requests, and what their misses are blamed on. */
module MissBlame {
  import opened Text
  import opened Content
  import opened Options
  import opened Prompt
  import opened PrefixRegistry

  /** One request that reaches the prefix cache. */
  datatype Turn = Turn(at: int, scope: string, namespace: string, modelName: string, messages: seq<Message>,
                       chunks: seq<Chunk>)

  function TurnIdentity(p: Prompter, t: Turn): Identity {
    p.RequestIdentity(t.modelName, t.messages, t.chunks)
  }

  function EventOf(p: Prompter, t: Turn): Event {
    Event(t.at, Request(p.EntryOf(TurnIdentity(p, t), t.namespace), t.scope))
  }

  function EventsOf(p: Prompter, turns: seq<Turn>): seq<Event> {
    seq(|turns|, i requires 0 <= i < |turns| => EventOf(p, turns[i]))
  }

  /** An empty stable prompt is not registered. */
  predicate Registers(p: Prompter, t: Turn) {
    TurnIdentity(p, t).sections.stable != ""
  }

  /** The last turn registered under a scope. */
  function LastBy(p: Prompter, turns: seq<Turn>, scope: string): (last: Option<nat>)
    ensures last.Some? ==> last.value < |turns| && turns[last.value].scope == scope && Registers(p, turns[last.value])
  {
    if turns == [] then None
    else
      var n := |turns| - 1;
      if turns[n].scope == scope && Registers(p, turns[n]) then Some(n) else LastBy(p, turns[..n], scope)
  }

  /** When the session record of turn j runs out. */
  function RecordEnd(p: Prompter, cfg: Config, turns: seq<Turn>, j: nat): int
    requires j < |turns|
  {
    RecordFrom(turns[j], Report(cfg, EventsOf(p, turns), j))
  }

  function RecordFrom(t: Turn, report: Outcome): int {
    t.at + if report.Registered? then report.entry.appliedTTL else 0
  }

  lemma EventsPrefix(p: Prompter, turns: seq<Turn>, n: nat)
    requires n <= |turns|
    ensures EventsOf(p, turns)[..n] == EventsOf(p, turns[..n])
  {}

  lemma RecordEndPrefix(p: Prompter, cfg: Config, turns: seq<Turn>, n: nat, j: nat)
    requires j < n <= |turns|
    ensures RecordEnd(p, cfg, turns[..n], j) == RecordEnd(p, cfg, turns, j)
  {
    EventsPrefix(p, turns, n);
    EventsPrefix(p, turns, j);
    EventsPrefix(p, turns[..n], j);
    assert turns[..n][..j] == turns[..j];
  }

  /** The hash of a turn that registers is not blank. */
  predicate HashShows(p: Prompter, t: Turn) {
    Registers(p, t) ==> !Blank(EventOf(p, t).request.entry.prefixHash)
  }

  lemma GoodHashShows(p: Prompter, t: Turn)
    requires p.GoodHash()
    ensures HashShows(p, t)
  {
    p.HashNotBlank(TurnIdentity(p, t).modelID, TurnIdentity(p, t).sections.stable);
  }

  lemma ReportRecords(p: Prompter, cfg: Config, st: Store, now: int, t: Turn)
    requires Registers(p, t) && HashShows(p, t)
    ensures var report := Register(cfg, st, now, EventOf(p, t).request).1;
      report.Registered? && p.Records(report.entry, TurnIdentity(p, t))
  {
    ReportKeepsEntry(cfg, st, now, EventOf(p, t).request);
  }

  /** The identity of the turn last registered under a scope, and when its record runs out. */
  function LastRecord(p: Prompter, cfg: Config, turns: seq<Turn>, scope: string): Option<(Identity, int)> {
    var last := LastBy(p, turns, scope);
    if last.None? then None else Some((TurnIdentity(p, turns[last.value]), RecordEnd(p, cfg, turns, last.value)))
  }

  /** What a miss is to be blamed on: the prefix last registered under the scope while that record lives. */
  function Expected(p: Prompter, t: Turn, record: Option<(Identity, int)>): (string, string) {
    if !Blank(t.scope) && record.Some? && t.at < record.value.1 then
      var a, b := record.value.0, TurnIdentity(p, t);
      Prompter.Blame(a.modelID, b.modelID, a.sections, b.sections)
    else ("created", "cold_start")
  }

  /** A session record made from an identity, that runs out at a given time. */
  ghost predicate SessionIs(p: Prompter, st: Store, scope: string, record: Option<(Identity, int)>) {
    if record.None? then scope !in st.sessions
    else
      && scope in st.sessions && p.Records(st.sessions[scope].value, record.value.0)
      && st.sessions[scope].expires == record.value.1
  }

  lemma LastRecordLater(p: Prompter, cfg: Config, turns: seq<Turn>, scope: string)
    requires turns != []
    ensures var n := |turns| - 1;
      LastRecord(p, cfg, turns, scope) ==
        if turns[n].scope == scope && Registers(p, turns[n]) then
          Some((TurnIdentity(p, turns[n]), RecordEnd(p, cfg, turns, n)))
        else LastRecord(p, cfg, turns[..n], scope)
  {
    var n := |turns| - 1;
    var before := LastBy(p, turns[..n], scope);
    if before.Some? {
      RecordEndPrefix(p, cfg, turns, n, before.value);
    }
  }

  lemma EmptyIsRejected(p: Prompter, cfg: Config, st: Store, t: Turn)
    requires !Registers(p, t)
    ensures Register(cfg, st, t.at, EventOf(p, t).request).0 == st
  {}

  /** What one turn does to the session record of a scope. */
  lemma OneTurn(p: Prompter, cfg: Config, st: Store, t: Turn, scope: string, record: Option<(Identity, int)>)
    requires HashShows(p, t) && !Blank(scope) && SessionIs(p, st, scope, record)
    ensures var (after, report) := Register(cfg, st, t.at, EventOf(p, t).request);
      SessionIs(p, after, scope,
        if t.scope == scope && Registers(p, t) then Some((TurnIdentity(p, t), RecordFrom(t, report))) else record)
  {
    if Registers(p, t) {
      ReportRecords(p, cfg, st, t.at, t);
      RegisteredSession(cfg, st, t.at, EventOf(p, t).request);
    } else {
      EmptyIsRejected(p, cfg, st, t);
    }
  }

  lemma AfterTurns(p: Prompter, cfg: Config, turns: seq<Turn>)
    requires turns != []
    ensures var n := |turns| - 1;
      var st := After(cfg, EventsOf(p, turns[..n]));
      && After(cfg, EventsOf(p, turns)) == Register(cfg, st, turns[n].at, EventOf(p, turns[n]).request).0
      && Report(cfg, EventsOf(p, turns), n) == Register(cfg, st, turns[n].at, EventOf(p, turns[n]).request).1
  {
    var events := EventsOf(p, turns);
    EventsPrefix(p, turns, |turns| - 1);
    assert events[|turns| - 1] == EventOf(p, turns[|turns| - 1]);
    AfterLast(cfg, events);
  }

  lemma TurnStep(p: Prompter, cfg: Config, turns: seq<Turn>, scope: string)
    requires turns != [] && HashShows(p, turns[|turns| - 1]) && !Blank(scope)
    requires var init := turns[..|turns| - 1];
      SessionIs(p, After(cfg, EventsOf(p, init)), scope, LastRecord(p, cfg, init, scope))
    ensures SessionIs(p, After(cfg, EventsOf(p, turns)), scope, LastRecord(p, cfg, turns, scope))
  {
    var n := |turns| - 1;
    AfterTurns(p, cfg, turns);
    OneTurn(p, cfg, After(cfg, EventsOf(p, turns[..n])), turns[n], scope, LastRecord(p, cfg, turns[..n], scope));
    LastRecordLater(p, cfg, turns, scope);
  }

  /** In every run the record of a session is that of the turn last registered under it. */
  lemma {:induction false} SessionOfRun(p: Prompter, cfg: Config, turns: seq<Turn>, scope: string)
    requires p.GoodHash() && !Blank(scope)
    ensures SessionIs(p, After(cfg, EventsOf(p, turns)), scope, LastRecord(p, cfg, turns, scope))
  {
    if turns != [] {
      SessionOfRun(p, cfg, turns[..|turns| - 1], scope);
      GoodHashShows(p, turns[|turns| - 1]);
      TurnStep(p, cfg, turns, scope);
    }
  }

  lemma NothingLive(cfg: Config, st: Store, now: int, r: Request)
    requires !Blank(r.entry.prefixHash) && !LoadStep(cfg, st, now, r).found
    requires Blank(r.sessionScope) || r.sessionScope !in st.sessions || now >= st.sessions[r.sessionScope].expires
    ensures var report := Register(cfg, st, now, r).1;
      report.Registered? && (report.missReason, report.segmentReason) == ("created", "cold_start")
  {
    MissReport(cfg, st, now, r);
  }

  /** An identity that a request has. */
  ghost predicate Built(p: Prompter, id: Identity) {
    id.modelID != "" && p.WellBuilt(id.sections) && id == p.IdentityOf(id.modelID, id.sections)
  }

  lemma TurnIsBuilt(p: Prompter, t: Turn)
    ensures Built(p, TurnIdentity(p, t))
  {
    p.RequestsAreWellBuilt(t.modelName, t.messages, t.chunks);
  }

  /** One registration that finds no entry, given the session's record. */
  lemma MissBlames(p: Prompter, cfg: Config, st: Store, t: Turn, record: Option<(Identity, int)>)
    requires p.GoodHash() && Registers(p, t) && HashShows(p, t)
    requires !Blank(t.scope) ==> SessionIs(p, st, t.scope, record)
    requires record.Some? ==> Built(p, record.value.0)
    requires !LoadStep(cfg, st, t.at, EventOf(p, t).request).found
    ensures var report := Register(cfg, st, t.at, EventOf(p, t).request).1;
      report.Registered? && (report.missReason, report.segmentReason) == Expected(p, t, record)
  {
    if !Blank(t.scope) && record.Some? && t.at < record.value.1 {
      var id := TurnIdentity(p, t);
      TurnIsBuilt(p, t);
      p.RegistrationBlamesExactly(cfg, st, t.at, t.scope, t.namespace, record.value.0, id.modelID, id.sections);
    } else {
      NothingLive(cfg, st, t.at, EventOf(p, t).request);
    }
  }

  lemma FoundIsHit(cfg: Config, st: Store, now: int, r: Request)
    requires !Blank(r.entry.prefixHash)
    ensures var report := Register(cfg, st, now, r).1;
      && report.Registered? && report.result == (if LoadStep(cfg, st, now, r).found then "hit" else "created")
      && (LoadStep(cfg, st, now, r).found ==> (report.missReason, report.segmentReason) == ("none", "none"))
  {}

  /** Over whole runs: a registration that misses blames what differs from the prefix last registered under its scope,
      as long as that record lives, and is a cold start otherwise. */
  lemma RunsBlameExactly(p: Prompter, cfg: Config, turns: seq<Turn>, i: nat)
    requires p.GoodHash() && i < |turns| && Registers(p, turns[i])
    ensures var report := Report(cfg, EventsOf(p, turns), i);
      && report.Registered? && report.result in {"hit", "created"}
      && (report.missReason, report.segmentReason) ==
           if report.result == "hit" then ("none", "none")
           else Expected(p, turns[i], LastRecord(p, cfg, turns[..i], turns[i].scope))
  {
    var t, st, record := turns[i], After(cfg, EventsOf(p, turns[..i])), LastRecord(p, cfg, turns[..i], turns[i].scope);
    EventsPrefix(p, turns, i);
    GoodHashShows(p, t);
    FoundIsHit(cfg, st, t.at, EventOf(p, t).request);
    if !Blank(t.scope) {
      SessionOfRun(p, cfg, turns[..i], t.scope);
    }
    if record.Some? {
      TurnIsBuilt(p, turns[..i][LastBy(p, turns[..i], t.scope).value]);
    }
    if !LoadStep(cfg, st, t.at, EventOf(p, t).request).found {
      MissBlames(p, cfg, st, t, record);
    }
  }
}
