/** Pages and summary artifacts under expiry: prepare, persist, decode, validate and resolve. */
module SummaryStore {
  import opened Options
  import opened Text
  import opened Seqs
  import opened PageKeys

  const SCHEMA_V1 := "summary-artifact-v1"
  const HEURISTIC := "heuristic"
  const HEURISTIC_V1 := "heuristic-v1"

  /** A moment; 0 is the zero time. */
  type Time = int

  datatype Artifact = Artifact(
    artifactID: string,
    jobID: string,
    sessionID: string,
    requestID: string,
    policy: string,
    chunkID: string,
    source: string,
    pageRefs: seq<string>,
    contentHash: string,
    summaryText: string,
    fragmentTypes: seq<string>,
    provider: string,
    providerVersion: string,
    schemaVersion: string,
    createdAt: Time,
    expiresAt: Time)

  /** A stored payload: not JSON, or an object with the fields of an artifact and the legacy `content`. */
  datatype Payload = Malformed | Fields(artifact: Artifact, legacyContent: string)

  function NonEmpty(values: seq<string>): seq<string> {
    if values == [] then [] else (if values[0] == "" then [] else [values[0]]) + NonEmpty(values[1..])
  }

  /** BuildSummaryArtifactID. */
  function ArtifactID(contentHash: string, provider: string, version: string): string {
    Join(NonEmpty(["summary", SCHEMA_V1, TrimSpace(provider), TrimSpace(version), TrimSpace(contentHash)]), ":")
  }

  /** The trimmed values that are not blank, each once, those in `seen` left out. */
  function Unique(values: seq<string>, seen: set<string>): seq<string> {
    if values == [] then []
    else
      var value := TrimSpace(values[0]);
      if value == "" || value in seen then Unique(values[1..], seen)
      else [value] + Unique(values[1..], seen + {value})
  }

  /** appendUnique. */
  function AppendUnique(first: string, values: seq<string>): seq<string> {
    Unique([first] + values, {})
  }

  method ComputeAppendUnique(first: string, values: seq<string>) returns (out: seq<string>)
    ensures out == AppendUnique(first, values)
  {
    out := [];
    var seen: set<string> := {};
    var todo := [first] + values;
    while |todo| > 0
      invariant out + Unique(todo, seen) == AppendUnique(first, values)
    {
      var value := TrimSpace(todo[0]);
      todo := todo[1..];
      if !(value == "" || value in seen) {
        Assoc(out, [value], Unique(todo, seen + {value}));
        out := out + [value];
        seen := seen + {value};
      }
    }
  }

  lemma {:induction false} UniqueFacts(values: seq<string>, seen: set<string>)
    ensures forall v :: v in Unique(values, seen) ==> v != "" && Trimmed(v) && v !in seen
    ensures forall i, j :: 0 <= i < j < |Unique(values, seen)| ==> Unique(values, seen)[i] != Unique(values, seen)[j]
  {
    if values != [] {
      var value := TrimSpace(values[0]);
      TrimSpaceTrims(values[0]);
      UniqueFacts(values[1..], seen);
      UniqueFacts(values[1..], seen + {value});
    }
  }

  lemma {:induction false} UniqueStays(values: seq<string>, seen: set<string>)
    requires forall v :: v in values ==> v != "" && Trimmed(v) && v !in seen
    requires forall i, j :: 0 <= i < j < |values| ==> values[i] != values[j]
    ensures Unique(values, seen) == values
  {
    if values != [] {
      assert values[0] in values;
      TrimmedStays(values[0]);
      forall v | v in values[1..]
        ensures v in values && v !in seen + {values[0]}
      {
        var k :| 0 <= k < |values[1..]| && values[1..][k] == v;
        assert values[k + 1] == v;
      }
      UniqueStays(values[1..], seen + {values[0]});
    }
  }

  /** Listing a reference in front of a list that already starts with it changes nothing. */
  lemma AppendUniqueStays(first: string, values: seq<string>)
    ensures AppendUnique(first, AppendUnique(first, values)) == AppendUnique(first, values)
  {
    var out := AppendUnique(first, values);
    UniqueFacts([first] + values, {});
    var value := TrimSpace(first);
    assert ([first] + values)[1..] == values && ([first] + out)[1..] == out;
    if value == "" {
      UniqueStays(out, {});
    } else {
      var none: set<string> := {};
      assert none + {value} == {value};
      assert out == [value] + Unique(values, {value});
      assert out[1..] == Unique(values, {value});
      TrimmedStays(value);
      TrimSpaceTrims(first);
      UniqueFacts(values, {value});
      UniqueStays(out[1..], {value});
      assert Unique(out, {value}) == Unique(out[1..], {value});
      assert Unique([first] + out, none) == [value] + Unique(out, none + {value});
    }
  }

  datatype Resolved = Miss | Resolved(content: string, isSummary: bool, jobID: string, artifact: Option<Artifact>)

  type Pages = map<string, (string, Time)>
  type Summaries = map<string, (Payload, Time)>

  function LivePage(pages: Pages, key: string, now: Time): Option<string> {
    if key in pages && now < pages[key].1 then Some(pages[key].0) else None
  }

  function SlotIn(summaries: Summaries, key: string): Option<(Payload, Time)> {
    if key in summaries then Some(summaries[key]) else None
  }

  datatype Clerk = Clerk(pageTTL: int) {
    /** prepareSummaryArtifact; None stands for its two errors. */
    function Prepare(pageKey: string, a: Artifact, now: Time): Option<Artifact> {
      var expected := HashFromKey(pageKey);
      var text := TrimSpace(a.summaryText);
      var createdAt := if a.createdAt == 0 then now else a.createdAt;
      var hash := if Blank(a.contentHash) then expected else a.contentHash;
      if text == "" || (expected != "" && hash != "" && hash != expected) then None
      else
        var provider := if Blank(a.provider) then HEURISTIC else a.provider;
        var version := if Blank(a.providerVersion) then HEURISTIC_V1 else a.providerVersion;
        Some(a.(
          summaryText := text,
          createdAt := createdAt,
          contentHash := hash,
          schemaVersion := if Blank(a.schemaVersion) then SCHEMA_V1 else a.schemaVersion,
          provider := provider,
          providerVersion := version,
          artifactID := if Blank(a.artifactID) then ArtifactID(hash, provider, version) else a.artifactID,
          expiresAt := if a.expiresAt == 0 && pageTTL > 0 then createdAt + pageTTL else a.expiresAt,
          pageRefs := AppendUnique(pageKey, a.pageRefs),
          fragmentTypes := AppendUnique("", a.fragmentTypes)))
    }

    /** Preparing twice is preparing once, whatever the clock says the second time. */
    lemma PrepareIsIdempotent(pageKey: string, a: Artifact, now: Time, later: Time)
      requires pageTTL > 0 && now > 0 && a.createdAt >= 0
      requires Prepare(pageKey, a, now).Some?
      ensures Prepare(pageKey, Prepare(pageKey, a, now).value, later) == Prepare(pageKey, a, now)
    {
      var b := Prepare(pageKey, a, now).value;
      TrimIdempotent(a.summaryText);
      AppendUniqueStays(pageKey, a.pageRefs);
      AppendUniqueStays("", a.fragmentTypes);
      ArtifactIDNotBlank(b.contentHash, b.provider, b.providerVersion);
    }

    lemma ArtifactIDNotBlank(contentHash: string, provider: string, version: string)
      ensures !Blank(ArtifactID(contentHash, provider, version))
    {
      var parts := ["summary", SCHEMA_V1, TrimSpace(provider), TrimSpace(version), TrimSpace(contentHash)];
      var rest := NonEmpty(parts[1..]);
      assert NonEmpty(parts) == ["summary"] + rest;
      var id := ArtifactID(contentHash, provider, version);
      assert id[0] == 's' by {
        assert (["summary"] + rest)[1..] == rest;
      }
      EraseMember(id, 's');
      EraseTrim(id);
    }

    /** validateSummaryArtifact. */
    predicate Validates(pageKey: string, a: Artifact, now: Time) {
      var expected := HashFromKey(pageKey);
      && !Blank(a.summaryText)
      && TrimSpace(a.schemaVersion) == SCHEMA_V1
      && (expected != "" ==> !Blank(a.contentHash) && TrimSpace(a.contentHash) == expected)
      && !Blank(a.provider)
      && (a.provider == HEURISTIC ==> TrimSpace(a.providerVersion) == HEURISTIC_V1)
      && (a.expiresAt != 0 ==> now < a.expiresAt)
    }

    /** The artifact that a legacy payload stands for. */
    function Migrated(pageKey: string, p: Payload): Artifact
      requires p.Fields?
    {
      var hash := HashFromKey(pageKey);
      var job := TrimSpace(p.artifact.jobID);
      Artifact(
        ArtifactID(hash, HEURISTIC, HEURISTIC_V1), if job == "" then "summary-" + hash else job,
        "", "", "", "", "", [pageKey], hash, TrimSpace(p.legacyContent), [], HEURISTIC, HEURISTIC_V1, SCHEMA_V1,
        p.artifact.createdAt, 0)
    }

    predicate Legacy(p: Payload) {
      p.Fields? && Blank(p.artifact.summaryText) && !Blank(p.legacyContent)
    }

    /** decodeSummaryArtifact. */
    function Decode(pageKey: string, p: Payload, now: Time): Option<Artifact> {
      if p.Malformed? then None
      else if !Blank(p.artifact.summaryText) then Prepare(pageKey, p.artifact, now)
      else if Blank(p.legacyContent) then None
      else Prepare(pageKey, Migrated(pageKey, p), now)
    }

    // ----- the store -----

    /** loadSummaryArtifact: what it does to the slot of one key, and what it returns. */
    function LoadSlot(pageKey: string, slot: Option<(Payload, Time)>, now: Time)
      : (Option<(Payload, Time)>, Option<Artifact>)
    {
      if slot.None? || now >= slot.value.1 then (None, None)
      else
        var decoded := Decode(pageKey, slot.value.0, now);
        if decoded.None? || !Validates(pageKey, decoded.value, now) then (None, None)
        else (if Legacy(slot.value.0) then Some((Fields(decoded.value, ""), now + pageTTL)) else slot, decoded)
    }

    /** The summary that a key serves, if any. */
    function Served(summaries: Summaries, key: string, now: Time): Option<Artifact> {
      LoadSlot(key, SlotIn(summaries, key), now).1
    }

    /** What a reader of a key gets: its summary before its page. */
    function Answer(pages: Pages, summaries: Summaries, key: string, now: Time): Resolved {
      var served, page := Served(summaries, key, now), LivePage(pages, key, now);
      if served.Some? then Resolved(served.value.summaryText, true, served.value.jobID, served)
      else if page.Some? then Resolved(page.value, false, "", None)
      else Miss
    }

    /** Every gap is filled: nothing is left for preparation to do. */
    predicate Complete(pageKey: string, b: Artifact, now: Time) {
      && TrimSpace(b.summaryText) == b.summaryText != ""
      && (b.createdAt == 0 ==> now == 0) && (b.expiresAt == 0 && pageTTL > 0 ==> b.createdAt + pageTTL == 0)
      && var expected := HashFromKey(pageKey);
      && (Blank(b.contentHash) ==> b.contentHash == expected)
      && (expected == "" || b.contentHash == "" || b.contentHash == expected)
      && !Blank(b.schemaVersion) && !Blank(b.provider) && !Blank(b.providerVersion) && !Blank(b.artifactID)
      && AppendUnique(pageKey, b.pageRefs) == b.pageRefs && AppendUnique("", b.fragmentTypes) == b.fragmentTypes
    }

    lemma CompleteStays(pageKey: string, b: Artifact, now: Time)
      requires Complete(pageKey, b, now)
      ensures Prepare(pageKey, b, now) == Some(b)
    {}

    lemma PrepareAtOnce(pageKey: string, a: Artifact, now: Time)
      requires Prepare(pageKey, a, now).Some?
      ensures Prepare(pageKey, Prepare(pageKey, a, now).value, now) == Prepare(pageKey, a, now)
    {
      PreparedIsComplete(pageKey, a, now);
      CompleteStays(pageKey, Prepare(pageKey, a, now).value, now);
    }

    lemma PreparedIsComplete(pageKey: string, a: Artifact, now: Time)
      requires Prepare(pageKey, a, now).Some?
      ensures Complete(pageKey, Prepare(pageKey, a, now).value, now)
    {
      TrimmedStays(SCHEMA_V1);
      TrimmedStays(HEURISTIC);
      TrimmedStays(HEURISTIC_V1);
      var b := Prepare(pageKey, a, now).value;
      TrimIdempotent(a.summaryText);
      AppendUniqueStays(pageKey, a.pageRefs);
      AppendUniqueStays("", a.fragmentTypes);
      ArtifactIDNotBlank(b.contentHash, b.provider, b.providerVersion);
    }

    /** Loading a slot a second time at the same moment yields what it yielded the first time. */
    lemma LoadTwice(pageKey: string, slot: Option<(Payload, Time)>, now: Time)
      requires pageTTL > 0
      ensures LoadSlot(pageKey, LoadSlot(pageKey, slot, now).0, now).1 == LoadSlot(pageKey, slot, now).1
    {
      if LoadSlot(pageKey, slot, now).1.Some? && Legacy(slot.value.0) {
        var m := Migrated(pageKey, slot.value.0);
        PrepareAtOnce(pageKey, m, now);
        TrimIdempotent(m.summaryText);
      }
    }

    /** What SaveSummary leaves in the slot of its key. */
    function Saved(a: Artifact, now: Time): Option<(Payload, Time)> {
      Some((Fields(a, ""), now + pageTTL))
    }

    /** The page key carries a hash without outer white space, or none. */
    predicate CleanKey(pageKey: string) {
      Trimmed(HashFromKey(pageKey))
    }

    /** A prepared artifact validates exactly while its versions are known, its key is clean and its time has not run
        out. */
    lemma PreparedValidatesExactly(pageKey: string, a: Artifact, now: Time, later: Time)
      requires pageTTL > 0 && now > 0 && a.createdAt >= 0
      requires Prepare(pageKey, a, now).Some?
      ensures var b := Prepare(pageKey, a, now).value;
        Validates(pageKey, b, later) <==>
          && (Blank(a.schemaVersion) || TrimSpace(a.schemaVersion) == SCHEMA_V1)
          && (b.provider == HEURISTIC ==> Blank(a.providerVersion) || TrimSpace(a.providerVersion) == HEURISTIC_V1)
          && CleanKey(pageKey) && later < b.expiresAt
    {
      var b := Prepare(pageKey, a, now).value;
      var expected := HashFromKey(pageKey);
      TrimIdempotent(a.summaryText);
      TrimmedStays(SCHEMA_V1);
      TrimmedStays(HEURISTIC);
      TrimmedStays(HEURISTIC_V1);
      TrimSpaceTrims(expected);
      if expected != "" {
        assert b.contentHash == expected || b.contentHash == "";
        assert b.contentHash != "";
      }
      if CleanKey(pageKey) {
        TrimmedStays(expected);
      }
    }

    /** What was saved loads back unchanged, slot included, exactly while it validates and the slot is live. */
    lemma SaveLoadRoundTrip(pageKey: string, a: Artifact, now: Time, later: Time)
      requires pageTTL > 0 && now > 0 && a.createdAt >= 0
      requires Prepare(pageKey, a, now).Some?
      ensures var b := Prepare(pageKey, a, now).value;
        LoadSlot(pageKey, Saved(b, now), later) ==
          if later < now + pageTTL && Validates(pageKey, b, later) then (Saved(b, now), Some(b)) else (None, None)
    {
      var b := Prepare(pageKey, a, now).value;
      PrepareIsIdempotent(pageKey, a, now, later);
      TrimIdempotent(a.summaryText);
    }

    /** The artifact that a legacy payload loads to says what the payload said, under the hash of its key. */
    lemma LegacyLoadsItsText(pageKey: string, p: Payload, until: Time, now: Time)
      requires Legacy(p) && LoadSlot(pageKey, Some((p, until)), now).1.Some?
      ensures var loaded := LoadSlot(pageKey, Some((p, until)), now).1.value;
        && loaded.summaryText == TrimSpace(p.legacyContent) && loaded.contentHash == HashFromKey(pageKey)
        && loaded.provider == HEURISTIC && loaded.providerVersion == HEURISTIC_V1
    {
      TrimIdempotent(p.legacyContent);
      TrimmedStays(HEURISTIC);
      TrimmedStays(HEURISTIC_V1);
    }

    /** A legacy payload that loads once keeps loading to the same artifact, which its slot now holds. */
    lemma LegacyLoadsOnceAndForAll(pageKey: string, p: Payload, until: Time, now: Time, later: Time)
      requires pageTTL > 0 && now > 0 && Legacy(p) && p.artifact.createdAt >= 0
      requires LoadSlot(pageKey, Some((p, until)), now).1.Some?
      ensures var (slot, loaded) := LoadSlot(pageKey, Some((p, until)), now);
        && slot == Saved(loaded.value, now)
        && LoadSlot(pageKey, slot, later) ==
             if later < now + pageTTL && later < loaded.value.expiresAt then (slot, loaded) else (None, None)
    {
      var m := Migrated(pageKey, p);
      SaveLoadRoundTrip(pageKey, m, now, later);
      PreparedValidatesExactly(pageKey, m, now, now);
      PreparedValidatesExactly(pageKey, m, now, later);
    }

    /** Whatever lies in a slot: a summary that is served validates and carries the hash of its key; otherwise the slot
        is cleared. */
    lemma ServedSummaryIsValid(pageKey: string, slot: Option<(Payload, Time)>, now: Time)
      ensures var (left, served) := LoadSlot(pageKey, slot, now);
        && (served.Some? ==> Validates(pageKey, served.value, now) && left.Some?)
        && (served.Some? && HashFromKey(pageKey) != "" ==> TrimSpace(served.value.contentHash) == HashFromKey(pageKey))
        && (served.None? ==> left.None?)
    {}
  }

  class PageStore {
    const clerk: Clerk
    var pages: Pages
    var summaries: Summaries

    constructor (pageTTL: int)
      ensures clerk == Clerk(pageTTL) && pages == map[] && summaries == map[]
    {
      clerk := Clerk(pageTTL);
      pages := map[];
      summaries := map[];
    }

    /** The raw page under a key while it is live. */
    function Page(key: string, now: Time): Option<string>
      reads this`pages
    {
      LivePage(pages, key, now)
    }

    function Slot(key: string): Option<(Payload, Time)>
      reads this`summaries
    {
      SlotIn(summaries, key)
    }

    /** Set if absent, otherwise renew the expiry: the first content stays. */
    method SavePage(key: string, content: string, now: Time)
      modifies this`pages
      ensures var page := old(Page(key, now));
        pages == old(pages)[key := (if page.Some? then page.value else content, now + clerk.pageTTL)]
    {
      if key in pages && now < pages[key].1 {
        pages := pages[key := (pages[key].0, now + clerk.pageTTL)];
      } else {
        pages := pages[key := (content, now + clerk.pageTTL)];
      }
    }

    /** SaveSummary: nothing changes when the artifact is rejected. */
    method SaveSummary(key: string, artifact: Artifact, now: Time) returns (ok: bool)
      modifies this`summaries
      ensures ok <==> clerk.Prepare(key, artifact, now).Some?
      ensures !ok ==> summaries == old(summaries)
      ensures ok ==> summaries == old(summaries)[key := clerk.Saved(clerk.Prepare(key, artifact, now).value, now).value]
    {
      var prepared := clerk.Prepare(key, artifact, now);
      ok := prepared.Some?;
      if ok {
        summaries := summaries[key := (Fields(prepared.value, ""), now + clerk.pageTTL)];
      }
    }

    method LoadSummaryArtifact(key: string, now: Time) returns (artifact: Option<Artifact>)
      modifies this`summaries
      ensures artifact == clerk.LoadSlot(key, old(Slot(key)), now).1
      ensures old(Slot(key)).Some? && now < old(Slot(key)).value.1 ==>
        Slot(key) == clerk.LoadSlot(key, old(Slot(key)), now).0
      ensures old(Slot(key)).None? || now >= old(Slot(key)).value.1 ==> summaries == old(summaries)
      ensures forall k :: k != key ==> Slot(k) == old(Slot(k))
    {
      if key !in summaries || now >= summaries[key].1 {
        return None;
      }
      var payload := summaries[key].0;
      artifact := clerk.Decode(key, payload, now);
      if artifact.None? {
        summaries := summaries - {key};
        return;
      }
      if clerk.Legacy(payload) {
        summaries := summaries[key := (Fields(artifact.value, ""), now + clerk.pageTTL)];
      }
      if !clerk.Validates(key, artifact.value, now) {
        summaries := summaries - {key};
        return None;
      }
    }

    /** What a reader of a key gets. */
    function Answer(key: string, now: Time): Resolved
      reads this`pages, this`summaries
    {
      clerk.Answer(pages, summaries, key, now)
    }

    /** LoadResolvedPage: a summary that loads, otherwise the raw page, otherwise a miss; pages are never touched. */
    method LoadResolvedPage(key: string, now: Time) returns (r: Resolved)
      modifies this`summaries
      ensures r == old(Answer(key, now))
      ensures r.Resolved? && r.isSummary ==> clerk.Validates(key, r.artifact.value, now)
      ensures !(r.Resolved? && r.isSummary) ==> Slot(key).None? || now >= Slot(key).value.1
      ensures clerk.pageTTL > 0 ==> Answer(key, now) == r
      ensures forall k :: k != key ==> Slot(k) == old(Slot(k))
    {
      ghost var slot := Slot(key);
      var artifact := LoadSummaryArtifact(key, now);
      if clerk.pageTTL > 0 {
        clerk.LoadTwice(key, slot, now);
      }
      if artifact.Some? {
        return Resolved(artifact.value.summaryText, true, artifact.value.jobID, artifact);
      }
      if key in pages && now < pages[key].1 {
        return Resolved(pages[key].0, false, "", None);
      }
      return Miss;
    }

    /** PageInDTO: the answers for all keys in order, or an error when one of them is a miss. Reading changes no
        answer. */
    method PageIn(keys: seq<string>, now: Time) returns (out: Option<seq<Resolved>>)
      requires clerk.pageTTL > 0
      modifies this`summaries
      ensures out.Some? <==> forall i :: 0 <= i < |keys| ==> old(Answer(keys[i], now)).Resolved?
      ensures out.Some? ==> |out.value| == |keys|
      ensures out.Some? ==> forall i :: 0 <= i < |keys| ==> out.value[i] == old(Answer(keys[i], now))
      ensures forall key :: Answer(key, now) == old(Answer(key, now))
    {
      var answers: seq<Resolved> := [];
      for i := 0 to |keys|
        invariant forall key :: Answer(key, now) == old(Answer(key, now))
        invariant |answers| == i && forall j :: 0 <= j < i ==>
          answers[j].Resolved? && answers[j] == old(Answer(keys[j], now))
      {
        label before:
        var r := LoadResolvedPage(keys[i], now);
        forall key
          ensures Answer(key, now) == old(Answer(key, now))
        {
          assert key != keys[i] ==> Slot(key) == old@before(Slot(key));
        }
        if r.Miss? {
          return None;
        }
        answers := answers + [r];
      }
      return Some(answers);
    }
  }
}
