/** Runs of registrations told by their times: when a registration hits, what it continues, and what the hot score
    counts. */
module RegistryRuns {
  import opened Text
  import opened PrefixRegistry

  // ----- the last registration -----

  /** The registration is about this storage key. */
  predicate Touches(cfg: Config, e: Event, key: string) {
    !Blank(e.request.entry.prefixHash) && KeyOf(cfg, e.request) == key
  }

  predicate Warms(e: Event, hotKey: string) {
    !Blank(e.request.entry.prefixHash) && HotKey(e.request.entry.namespace) == hotKey
  }

  /** Registration j is the last one about the key. */
  predicate LastTouch(cfg: Config, events: seq<Event>, key: string, j: nat) {
    j < |events| && Touches(cfg, events[j], key) && forall k :: j < k < |events| ==> !Touches(cfg, events[k], key)
  }

  predicate LastWarm(events: seq<Event>, hotKey: string, j: nat) {
    j < |events| && Warms(events[j], hotKey) && forall k :: j < k < |events| ==> !Warms(events[k], hotKey)
  }

  /** When what registration j stored runs out, by the lifetime its hit count calls for. */
  function EndOf(cfg: Config, events: seq<Event>, j: nat): int
    requires j < |events|
  {
    var report := Report(cfg, events, j);
    events[j].at + if report.Registered? then cfg.TTL(report.entry.hitCount) else 0
  }

  lemma ReportOfPrefix(cfg: Config, events: seq<Event>, n: nat, j: nat)
    requires j < n <= |events|
    ensures Report(cfg, events[..n], j) == Report(cfg, events, j) && EndOf(cfg, events[..n], j) == EndOf(cfg, events, j)
  {
    assert events[..n][..j] == events[..j];
  }

  /** What one registration stores. */
  lemma OneRegistration(cfg: Config, st: Store, now: int, r: Request)
    requires !Blank(r.entry.prefixHash)
    ensures var (after, report) := Register(cfg, st, now, r);
      && report.Registered? && report.entry.appliedTTL == cfg.TTL(report.entry.hitCount)
      && after.entries == st.entries[KeyOf(cfg, r) := Timed(report.entry, now + cfg.TTL(report.entry.hitCount))]
      && after.hotSets == Bump(st.hotSets, HotKey(r.entry.namespace), r.entry.prefixHash, now,
                               cfg.TTL(report.entry.hitCount))
      && report.hotScore == after.hotSets[HotKey(r.entry.namespace)].value[r.entry.prefixHash]
  {
    var e := Admit(cfg, now, r, LoadStep(cfg, st, now, r));
    assert e.namespace == r.entry.namespace && e.prefixHash == r.entry.prefixHash;
  }

  lemma RunLast(cfg: Config, events: seq<Event>)
    requires events != []
    ensures var n := |events| - 1;
      Report(cfg, events, n) == Register(cfg, After(cfg, events[..n]), events[n].at, events[n].request).1
      && After(cfg, events) == Register(cfg, After(cfg, events[..n]), events[n].at, events[n].request).0
  {}

  // ----- entries -----

  /** The key holds what its last registration reported, until that runs out; without one it holds nothing. */
  ghost predicate EntryIsLast(cfg: Config, events: seq<Event>, key: string) {
    var entries := After(cfg, events).entries;
    && (key in entries ==> exists j :: LastTouch(cfg, events, key, j))
    && (forall j :: LastTouch(cfg, events, key, j) ==> HoldsReport(cfg, events, key, j))
  }

  ghost predicate HoldsReport(cfg: Config, events: seq<Event>, key: string, j: nat)
    requires j < |events|
  {
    var entries, report := After(cfg, events).entries, Report(cfg, events, j);
    key in entries && report.Registered? && entries[key] == Timed(report.entry, EndOf(cfg, events, j))
  }

  lemma TouchedNow(cfg: Config, events: seq<Event>, key: string)
    requires events != [] && Touches(cfg, events[|events| - 1], key)
    ensures EntryIsLast(cfg, events, key)
  {
    var n := |events| - 1;
    RunLast(cfg, events);
    OneRegistration(cfg, After(cfg, events[..n]), events[n].at, events[n].request);
    assert LastTouch(cfg, events, key, n) && HoldsReport(cfg, events, key, n);
  }

  lemma NotTouched(cfg: Config, events: seq<Event>, key: string)
    requires events != [] && !Touches(cfg, events[|events| - 1], key)
    ensures var before, after := After(cfg, events[..|events| - 1]).entries, After(cfg, events).entries;
      (key in after <==> key in before) && (key in after ==> after[key] == before[key])
  {
    var n := |events| - 1;
    RunLast(cfg, events);
    if !Blank(events[n].request.entry.prefixHash) {
      OneRegistration(cfg, After(cfg, events[..n]), events[n].at, events[n].request);
    }
  }

  lemma LastTouchBefore(cfg: Config, events: seq<Event>, key: string, j: nat)
    requires events != [] && !Touches(cfg, events[|events| - 1], key)
    ensures LastTouch(cfg, events, key, j) <==> LastTouch(cfg, events[..|events| - 1], key, j)
  {
    var n := |events| - 1;
    if LastTouch(cfg, events, key, j) {
      forall k | j < k < n
        ensures !Touches(cfg, events[..n][k], key)
      {
        assert !Touches(cfg, events[k], key);
      }
    }
    if LastTouch(cfg, events[..n], key, j) {
      forall k | j < k < |events|
        ensures !Touches(cfg, events[k], key)
      {
        assert k < n ==> !Touches(cfg, events[..n][k], key);
      }
    }
  }

  lemma LastWarmBefore(events: seq<Event>, hotKey: string, j: nat)
    requires events != [] && !Warms(events[|events| - 1], hotKey)
    ensures LastWarm(events, hotKey, j) <==> LastWarm(events[..|events| - 1], hotKey, j)
  {
    var n := |events| - 1;
    if LastWarm(events, hotKey, j) {
      forall k | j < k < n
        ensures !Warms(events[..n][k], hotKey)
      {
        assert !Warms(events[k], hotKey);
      }
    }
    if LastWarm(events[..n], hotKey, j) {
      forall k | j < k < |events|
        ensures !Warms(events[k], hotKey)
      {
        assert k < n ==> !Warms(events[..n][k], hotKey);
      }
    }
  }

  lemma {:induction false} EntriesOfRun(cfg: Config, events: seq<Event>, key: string)
    ensures EntryIsLast(cfg, events, key)
  {
    if events != [] {
      var n := |events| - 1;
      if Touches(cfg, events[n], key) {
        TouchedNow(cfg, events, key);
      } else {
        EntriesOfRun(cfg, events[..n], key);
        NotTouched(cfg, events, key);
        forall j: nat
          ensures LastTouch(cfg, events, key, j) <==> LastTouch(cfg, events[..n], key, j)
        {
          LastTouchBefore(cfg, events, key, j);
        }
        EntryStays(cfg, events, key);
      }
    }
  }

  lemma EntryStays(cfg: Config, events: seq<Event>, key: string)
    requires events != [] && EntryIsLast(cfg, events[..|events| - 1], key)
    requires var before, after := After(cfg, events[..|events| - 1]).entries, After(cfg, events).entries;
      (key in after <==> key in before) && (key in after ==> after[key] == before[key])
    requires forall j: nat :: LastTouch(cfg, events, key, j) <==> LastTouch(cfg, events[..|events| - 1], key, j)
    ensures EntryIsLast(cfg, events, key)
  {
    var n := |events| - 1;
    forall j | LastTouch(cfg, events, key, j)
      ensures HoldsReport(cfg, events, key, j)
    {
      assert LastTouch(cfg, events[..n], key, j) && HoldsReport(cfg, events[..n], key, j);
      ReportOfPrefix(cfg, events, n, j);
    }
    if key in After(cfg, events).entries {
      var j :| LastTouch(cfg, events[..n], key, j);
      assert LastTouch(cfg, events, key, j);
    }
  }

  /** Registration j is the one that i continues: the last one about its key, and not run out. */
  predicate Continues(cfg: Config, events: seq<Event>, i: nat, j: nat)
    requires i < |events|
  {
    LastTouch(cfg, events[..i], KeyOf(cfg, events[i].request), j) && events[i].at < EndOf(cfg, events[..i], j)
  }

  /** A registration hits exactly when the last one about its key has not run out. Then it counts one more and keeps
      the time of creation; otherwise it starts anew. */
  lemma HitsExactly(cfg: Config, events: seq<Event>, i: nat)
    requires i < |events| && !Blank(events[i].request.entry.prefixHash)
    ensures var report := Report(cfg, events, i);
      && report.Registered? && report.entry.lastSeenAt == events[i].at
      && (report.result == "hit" <==> exists j :: Continues(cfg, events, i, j))
      && (forall j :: Continues(cfg, events, i, j) ==>
            var last := Report(cfg, events[..i], j);
            last.Registered? && report.entry.hitCount == last.entry.hitCount + 1
            && report.entry.createdAt == last.entry.createdAt)
      && (report.result != "hit" ==> report.entry.hitCount == 1 && report.entry.createdAt == events[i].at)
  {
    var r, key := events[i].request, KeyOf(cfg, events[i].request);
    EntriesOfRun(cfg, events[..i], key);
    var st := After(cfg, events[..i]);
    if key in st.entries {
      var j :| LastTouch(cfg, events[..i], key, j);
      assert HoldsReport(cfg, events[..i], key, j);
      if st.entries[key].Live(events[i].at) {
        assert Continues(cfg, events, i, j);
      }
    }
    forall j | Continues(cfg, events, i, j)
      ensures HoldsReport(cfg, events[..i], key, j) && st.entries[key].Live(events[i].at)
    {}
  }

  // ----- hot scores -----

  /** Registrations of a hash in a hot set since the set last started anew, counted from the end of the run. */
  ghost function Score(cfg: Config, events: seq<Event>, hotKey: string, hash: string): nat {
    if events == [] then 0
    else
      var n := |events| - 1;
      if !Warms(events[n], hotKey) then Score(cfg, events[..n], hotKey, hash)
      else
        (if SetLives(cfg, events[..n], hotKey, events[n].at) then Score(cfg, events[..n], hotKey, hash) else 0)
          + (if events[n].request.entry.prefixHash == hash then 1 else 0)
  }

  /** The last registration in the set has not run out. */
  ghost predicate SetLives(cfg: Config, events: seq<Event>, hotKey: string, at: int) {
    exists j :: LastWarm(events, hotKey, j) && at < EndOf(cfg, events, j)
  }

  function ScoreIn(scores: map<string, nat>, hash: string): nat {
    if hash in scores then scores[hash] else 0
  }

  ghost predicate SetTells(cfg: Config, events: seq<Event>, hotKey: string) {
    var sets := After(cfg, events).hotSets;
    && (hotKey in sets <==> exists j :: LastWarm(events, hotKey, j))
    && (hotKey in sets ==> forall j :: LastWarm(events, hotKey, j) ==> sets[hotKey].expires == EndOf(cfg, events, j))
    && (hotKey in sets ==> forall hash :: ScoreIn(sets[hotKey].value, hash) == Score(cfg, events, hotKey, hash))
  }

  lemma SetLivesExactly(cfg: Config, events: seq<Event>, hotKey: string, at: int)
    requires SetTells(cfg, events, hotKey)
    ensures var sets := After(cfg, events).hotSets;
      SetLives(cfg, events, hotKey, at) <==> hotKey in sets && sets[hotKey].Live(at)
  {
    var sets := After(cfg, events).hotSets;
    if hotKey in sets {
      var j :| LastWarm(events, hotKey, j);
      assert sets[hotKey].expires == EndOf(cfg, events, j);
    }
  }

  lemma BumpCounts(sets: map<string, Timed<map<string, nat>>>, hotKey: string, hash: string, now: int, ttl: int,
                   other: string)
    ensures var after := Bump(sets, hotKey, hash, now, ttl);
      && hotKey in after && after[hotKey].expires == now + ttl
      && ScoreIn(after[hotKey].value, other) ==
           (if hotKey in sets && sets[hotKey].Live(now) then ScoreIn(sets[hotKey].value, other) else 0)
             + (if hash == other then 1 else 0)
  {}

  lemma LastWarmNow(events: seq<Event>, hotKey: string)
    requires events != [] && Warms(events[|events| - 1], hotKey)
    ensures forall j :: LastWarm(events, hotKey, j) <==> j == |events| - 1
  {
    var n := |events| - 1;
    forall j: nat | j < n
      ensures !LastWarm(events, hotKey, j)
    {
      assert Warms(events[n], hotKey);
    }
  }

  lemma ScoreOfWarmed(cfg: Config, events: seq<Event>, hotKey: string, hash: string)
    requires events != [] && Warms(events[|events| - 1], hotKey)
    ensures var n := |events| - 1;
      Score(cfg, events, hotKey, hash) ==
        (if SetLives(cfg, events[..n], hotKey, events[n].at) then Score(cfg, events[..n], hotKey, hash) else 0)
          + (if events[n].request.entry.prefixHash == hash then 1 else 0)
  {}

  lemma ScoreBumped(cfg: Config, events: seq<Event>, hotKey: string, ttl: int, hash: string)
    requires events != [] && Warms(events[|events| - 1], hotKey) && SetTells(cfg, events[..|events| - 1], hotKey)
    ensures var n, e := |events| - 1, events[|events| - 1];
      var after := Bump(After(cfg, events[..n]).hotSets, hotKey, e.request.entry.prefixHash, e.at, ttl);
      ScoreIn(after[hotKey].value, hash) == Score(cfg, events, hotKey, hash)
  {
    var n, e := |events| - 1, events[|events| - 1];
    ScoreOfWarmed(cfg, events, hotKey, hash);
    SetLivesExactly(cfg, events[..n], hotKey, e.at);
    BumpCounts(After(cfg, events[..n]).hotSets, hotKey, e.request.entry.prefixHash, e.at, ttl, hash);
  }

  lemma WarmedNow(cfg: Config, events: seq<Event>, hotKey: string)
    requires events != [] && Warms(events[|events| - 1], hotKey) && SetTells(cfg, events[..|events| - 1], hotKey)
    ensures SetTells(cfg, events, hotKey)
  {
    var n := |events| - 1;
    var before, e := After(cfg, events[..n]).hotSets, events[n];
    var ttl := EndOf(cfg, events, n) - e.at;
    RunLast(cfg, events);
    OneRegistration(cfg, After(cfg, events[..n]), e.at, e.request);
    LastWarmNow(events, hotKey);
    assert LastWarm(events, hotKey, n);
    assert After(cfg, events).hotSets == Bump(before, hotKey, e.request.entry.prefixHash, e.at, ttl);
    BumpCounts(before, hotKey, e.request.entry.prefixHash, e.at, ttl, "");
    forall hash: string
      ensures ScoreIn(After(cfg, events).hotSets[hotKey].value, hash) == Score(cfg, events, hotKey, hash)
    {
      ScoreBumped(cfg, events, hotKey, ttl, hash);
    }
  }

  lemma SetStays(cfg: Config, events: seq<Event>, hotKey: string)
    requires events != [] && !Warms(events[|events| - 1], hotKey)
    ensures var before, after := After(cfg, events[..|events| - 1]).hotSets, After(cfg, events).hotSets;
      (hotKey in after <==> hotKey in before) && (hotKey in after ==> after[hotKey] == before[hotKey])
  {
    var n := |events| - 1;
    RunLast(cfg, events);
    if !Blank(events[n].request.entry.prefixHash) {
      OneRegistration(cfg, After(cfg, events[..n]), events[n].at, events[n].request);
    }
  }

  lemma NotWarmed(cfg: Config, events: seq<Event>, hotKey: string)
    requires events != [] && !Warms(events[|events| - 1], hotKey) && SetTells(cfg, events[..|events| - 1], hotKey)
    ensures SetTells(cfg, events, hotKey)
  {
    var n, sets := |events| - 1, After(cfg, events).hotSets;
    SetStays(cfg, events, hotKey);
    forall j: nat
      ensures LastWarm(events, hotKey, j) <==> LastWarm(events[..n], hotKey, j)
      ensures LastWarm(events, hotKey, j) ==> EndOf(cfg, events[..n], j) == EndOf(cfg, events, j)
    {
      LastWarmBefore(events, hotKey, j);
      if LastWarm(events, hotKey, j) {
        ReportOfPrefix(cfg, events, n, j);
      }
    }
    if hotKey in sets {
      var j :| LastWarm(events[..n], hotKey, j);
      assert LastWarm(events, hotKey, j);
      forall hash: string
        ensures ScoreIn(sets[hotKey].value, hash) == Score(cfg, events, hotKey, hash)
      {
        assert ScoreIn(sets[hotKey].value, hash) == Score(cfg, events[..n], hotKey, hash);
      }
    }
  }

  lemma {:induction false} SetsOfRun(cfg: Config, events: seq<Event>, hotKey: string)
    ensures SetTells(cfg, events, hotKey)
  {
    if events != [] {
      SetsOfRun(cfg, events[..|events| - 1], hotKey);
      if Warms(events[|events| - 1], hotKey) {
        WarmedNow(cfg, events, hotKey);
      } else {
        NotWarmed(cfg, events, hotKey);
      }
    }
  }

  /** The hot score that a registration reports is the number of registrations of its hash in its hot set since the set
      last started anew: it does so when the last registration in it has run out. */
  lemma HotScoreExactly(cfg: Config, events: seq<Event>, i: nat)
    requires i < |events| && !Blank(events[i].request.entry.prefixHash)
    ensures var r := events[i].request;
      Report(cfg, events, i).Registered?
      && Report(cfg, events, i).hotScore == Score(cfg, events[..i + 1], HotKey(r.entry.namespace), r.entry.prefixHash)
  {
    var upto, r := events[..i + 1], events[i].request;
    var hotKey := HotKey(r.entry.namespace);
    assert upto[..i] == events[..i];
    ReportOfPrefix(cfg, events, i + 1, i);
    RunLast(cfg, upto);
    OneRegistration(cfg, After(cfg, upto[..i]), upto[i].at, upto[i].request);
    SetsOfRun(cfg, upto, hotKey);
    assert ScoreIn(After(cfg, upto).hotSets[hotKey].value, r.entry.prefixHash)
      == Score(cfg, upto, hotKey, r.entry.prefixHash);
  }
}
