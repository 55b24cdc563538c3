/** Content-addressed page keys, and the content hash read back out of them. */
module PageKeys {
  import opened Text
  import opened Seqs
  import opened Sorting

  // ----- sanitised key parts -----

  /** The runes that the replacer of SanitizeKeyPart turns into a dash. */
  function Dash(c: char): char {
    if c in " :/\\|" then '-' else c
  }

  function SanitizeKeyPart(lower: string -> string, value: string): string {
    var trimmed := TrimSpace(lower(value));
    if trimmed == "" then "unknown" else Map((c: char) => Dash(c), trimmed)
  }

  /** The sanitised parts of StableArtifactKey, before they are sorted. */
  function KeyParts(lower: string -> string, values: seq<string>): seq<string> {
    if values == [] then [] else KeyPart(lower, values[0]) + KeyParts(lower, values[1..])
  }

  /** One part, unless it is blank. */
  function KeyPart(lower: string -> string, part: string): seq<string> {
    var value := TrimSpace(lower(part));
    if value == "" then [] else [SanitizeKeyPart(lower, value)]
  }

  function OwnKey(): string -> Key {
    (part: string) => (part, "")
  }

  function SortedParts(lower: string -> string, values: seq<string>): seq<string> {
    SortBy(KeyParts(lower, values), OwnKey())
  }

  function StableArtifactKey(lower: string -> string, values: seq<string>): string {
    Join(SortedParts(lower, values), ":")
  }

  method ComputeStableArtifactKey(lower: string -> string, values: seq<string>) returns (key: string)
    ensures key == StableArtifactKey(lower, values)
  {
    var items := CollectKeyParts(lower, values);
    key := Join(SortBy(items, OwnKey()), ":");
  }

  /** The loop of StableArtifactKey. */
  method CollectKeyParts(lower: string -> string, values: seq<string>) returns (items: seq<string>)
    ensures items == KeyParts(lower, values)
  {
    items := [];
    var todo := values;
    while |todo| > 0
      invariant items + KeyParts(lower, todo) == KeyParts(lower, values)
    {
      Assoc(items, KeyPart(lower, todo[0]), KeyParts(lower, todo[1..]));
      items := items + KeyPart(lower, todo[0]);
      todo := todo[1..];
    }
  }

  function Digits(n: nat): (r: string)
    ensures ':' !in r && r != ""
  {
    var last := [('0' as int + n % 10) as char];
    if n < 10 then last else Digits(n / 10) + last
  }

  /** contentAddressedPageKey. */
  function PageKey(lower: string -> string, sources: seq<string>, hash: string, index: nat): string {
    var sourceKey := StableArtifactKey(lower, sources);
    "artifact:v1:rag:sources:" + (if sourceKey == "" then "unknown" else sourceKey)
      + ":hash:" + hash + ":page:" + Digits(index)
  }

  function BeforePage(remainder: string): string {
    var end := Index(remainder, ":page:");
    if end >= 0 then remainder[..end] else remainder
  }

  /** contentHashFromPageKey. */
  function HashFromKey(key: string): string {
    var start := Index(key, ":hash:");
    if start < 0 then "" else BeforePage(key[start + |":hash:"|..])
  }

  // ----- a key as a list of colon-free segments -----

  ghost predicate ColonFree(segments: seq<string>) {
    forall s :: s in segments ==> ':' !in s
  }

  lemma {:induction false} IndexSkip(s: string, t: string, sub: string)
    requires sub != "" && sub[0] !in s
    ensures Index(s + t, sub) == if Index(t, sub) < 0 then -1 else |s| + Index(t, sub)
  {
    if s == "" {
      assert s + t == t;
    } else {
      assert (s + t)[1..] == s[1..] + t;
      assert (s + t)[0] != sub[0];
      IndexSkip(s[1..], t, sub);
    }
  }

  /** In a text that starts with a colon-free segment, the first colon is the one behind that segment. */
  lemma FirstColon(s: string, t: string)
    requires ':' !in s
    ensures var whole := s + ":" + t; whole[|s|] == ':' && forall k :: 0 <= k < |s| ==> whole[k] != ':'
  {
    forall k | 0 <= k < |s|
      ensures (s + ":" + t)[k] != ':'
    {
      assert (s + ":" + t)[k] == s[k] && s[k] in s;
    }
  }

  lemma PrefixOfSegment(word: string, s: string, t: string)
    requires ':' !in word && ':' !in s
    ensures HasPrefix(s + ":" + t, word + ":") <==> s == word
  {
    var whole := s + ":" + t;
    if HasPrefix(whole, word + ":") {
      var rest := whole[|word| + 1..];
      assert whole == whole[..|word| + 1] + rest == word + ":" + rest;
      FirstColon(s, t);
      FirstColon(word, rest);
      assert s == whole[..|s|] && word == whole[..|word|];
    }
  }

  lemma JoinFirst(segments: seq<string>)
    requires |segments| > 1
    ensures Join(segments, ":") == segments[0] + ":" + Join(segments[1..], ":")
  {}

  lemma {:induction false} JoinAppend(a: seq<string>, b: seq<string>)
    requires a != [] && b != []
    ensures Join(a + b, ":") == Join(a, ":") + (":" + Join(b, ":"))
  {
    if |a| == 1 {
      assert (a + b)[1..] == b;
    } else {
      assert (a + b)[1..] == a[1..] + b;
      JoinAppend(a[1..], b);
      Assoc(a[0] + ":", Join(a[1..], ":"), ":" + Join(b, ":"));
    }
  }

  lemma PrefixPastColon(u: string, w: string)
    ensures HasPrefix(":" + u, ":" + w) <==> HasPrefix(u, w)
  {
    if |w| <= |u| {
      assert (":" + u)[..|w| + 1] == ":" + u[..|w|];
    }
    if HasPrefix(":" + u, ":" + w) {
      assert (":" + w)[1..] == w && (":" + u[..|w|])[1..] == u[..|w|];
    }
  }

  /** Looking for a marker past one segment. */
  lemma IndexPastSegment(s: string, u: string, word: string)
    requires ':' !in s
    ensures var sub := ":" + (word + ":");
      Index(s + (":" + u), sub) ==
        if HasPrefix(u, word + ":") then |s| else if Index(u, sub) < 0 then -1 else |s| + 1 + Index(u, sub)
  {
    var sub := ":" + (word + ":");
    IndexSkip(s, ":" + u, sub);
    PrefixPastColon(u, word + ":");
    assert (":" + u)[1..] == u;
  }

  /** The marker `:word:` stands first right after the segments in front of the first inner `word`. */
  lemma {:induction false} MarkerAfter(head: seq<string>, word: string, tail: seq<string>)
    requires head != [] && tail != [] && ColonFree(head) && ':' !in word && word !in head[1..]
    ensures Index(Join(head + ([word] + tail), ":"), ":" + (word + ":")) == |Join(head, ":")|
  {
    var all := head + ([word] + tail);
    var s, rest := head[0], all[1..];
    assert s in head && all[0] == s && |rest| > 1;
    JoinFirst(all);
    Assoc(s, ":", Join(rest, ":"));
    IndexPastSegment(s, Join(rest, ":"), word);
    JoinFirst(rest);
    if |head| == 1 {
      assert rest == [word] + tail;
      PrefixOfSegment(word, word, Join(rest[1..], ":"));
      assert head == [s];
    } else {
      assert rest == head[1..] + ([word] + tail);
      assert rest[0] == head[1] && head[1] in head[1..] && head[1] in head;
      PrefixOfSegment(word, rest[0], Join(rest[1..], ":"));
      MarkerAfter(head[1..], word, tail);
      JoinFirst(head);
    }
  }

  lemma CutKey(h: string, word: string, t: string)
    ensures var key := h + (":" + (word + (":" + t)));
      |h| + |word| + 2 <= |key| && key[..|h|] == h && key[|h| + |word| + 2..] == t
  {
    var key := h + (":" + (word + (":" + t)));
    assert key == h + ":" + word + ":" + t;
  }

  /** What follows the marker is the join of the segments behind it. */
  lemma MarkerSplits(head: seq<string>, word: string, tail: seq<string>)
    requires head != [] && tail != [] && ColonFree(head) && ':' !in word && word !in head[1..]
    ensures var key := Join(head + ([word] + tail), ":");
      var start := Index(key, ":" + (word + ":"));
      start == |Join(head, ":")| && start + |word| + 2 <= |key|
      && key[..start] == Join(head, ":") && key[start + |word| + 2..] == Join(tail, ":")
  {
    MarkerAfter(head, word, tail);
    JoinAppend(head, [word] + tail);
    JoinAppend([word], tail);
    CutKey(Join(head, ":"), word, Join(tail, ":"));
  }

  // ----- the round trip -----

  lemma {:induction false} PartsAreClean(lower: string -> string, values: seq<string>)
    ensures ColonFree(KeyParts(lower, values))
    ensures forall part :: part in KeyParts(lower, values) ==> part != ""
  {
    if values != [] {
      PartsAreClean(lower, values[1..]);
      var value := TrimSpace(lower(values[0]));
      MapAt((c: char) => Dash(c), TrimSpace(lower(value)));
    }
  }

  const FRONT := ["artifact", "v1", "rag", "sources"]

  function NamedParts(parts: seq<string>): seq<string> {
    if parts == [] then ["unknown"] else parts
  }

  /** The segments of a page key. */
  function Segments(parts: seq<string>, hash: string, digits: string): seq<string> {
    FRONT + NamedParts(parts) + (["hash"] + [hash, "page", digits])
  }

  lemma JoinThree(a: string, b: string, c: string)
    ensures Join([a, b, c], ":") == a + ":" + (b + ":" + c)
  {
    JoinFirst([b, c]);
    assert [a, b, c][1..] == [b, c] && [b, c][1..] == [c];
  }

  lemma JoinFront()
    ensures Join(FRONT, ":") == "artifact:v1:rag:sources"
  {
    assert FRONT[1..] == ["v1", "rag", "sources"];
    JoinThree("v1", "rag", "sources");
  }

  lemma NamedJoin(lower: string -> string, sources: seq<string>)
    ensures var parts := SortedParts(lower, sources);
      Join(NamedParts(parts), ":") == if Join(parts, ":") == "" then "unknown" else Join(parts, ":")
  {
    var parts := SortedParts(lower, sources);
    PartsAreClean(lower, sources);
    SortKeeps(KeyParts(lower, sources), OwnKey());
    if parts != [] {
      assert parts[0] in multiset(parts);
      assert parts[0] in multiset(KeyParts(lower, sources));
      assert parts[0] in KeyParts(lower, sources);
    }
  }

  lemma PageKeySegments(lower: string -> string, sources: seq<string>, hash: string, index: nat)
    ensures PageKey(lower, sources, hash, index) ==
      Join(Segments(SortedParts(lower, sources), hash, Digits(index)), ":")
  {
    var named := NamedParts(SortedParts(lower, sources));
    NamedJoin(lower, sources);
    JoinFront();
    var middle, digits := Join(named, ":"), Digits(index);
    var tail := [hash, "page", digits];
    JoinThree(hash, "page", digits);
    JoinAppend(["hash"], tail);
    JoinAppend(FRONT, named);
    JoinAppend(FRONT + named, ["hash"] + tail);
    SpellKey(middle, hash, digits);
  }

  lemma SpellKey(middle: string, hash: string, digits: string)
    ensures "artifact:v1:rag:sources" + (":" + middle) +
      (":" + ("hash" + (":" + (hash + ":" + ("page" + ":" + digits)))))
      == "artifact:v1:rag:sources:" + middle + ":hash:" + hash + ":page:" + digits
  {
    assert "artifact:v1:rag:sources" + (":" + middle) == "artifact:v1:rag:sources:" + middle;
    assert ":" + ("hash" + (":" + (hash + ":" + ("page" + ":" + digits)))) == ":hash:" + hash + ":page:" + digits;
  }

  /** A content hash: lower-case hexadecimal digits. */
  predicate Hex(hash: string) {
    forall c :: c in hash ==> '0' <= c <= '9' || 'a' <= c <= 'f'
  }

  /** Reading a key whose first inner "hash" segment stands after `head`. */
  lemma ReadAfterHash(head: seq<string>, tail: seq<string>)
    requires head != [] && tail != [] && ColonFree(head) && "hash" !in head[1..]
    ensures HashFromKey(Join(head + (["hash"] + tail), ":")) == BeforePage(Join(tail, ":"))
  {
    assert ":hash:" == ":" + ("hash" + ":");
    MarkerSplits(head, "hash", tail);
  }

  lemma ReadBeforePage(head: seq<string>, tail: seq<string>)
    requires head != [] && tail != [] && ColonFree(head) && "page" !in head[1..]
    ensures BeforePage(Join(head + (["page"] + tail), ":")) == Join(head, ":")
  {
    assert ":page:" == ":" + ("page" + ":");
    MarkerSplits(head, "page", tail);
  }

  lemma RoundTripHolds(parts: seq<string>, hash: string, digits: string)
    requires ColonFree(parts) && "hash" !in parts && ':' !in hash
    ensures HashFromKey(Join(Segments(parts, hash, digits), ":")) == hash
  {
    var tail := [hash, "page", digits];
    ReadAfterHash(FRONT + NamedParts(parts), tail);
    assert tail == [hash] + (["page"] + [digits]);
    ReadBeforePage([hash], [digits]);
  }

  function FirstPlace(segments: seq<string>, word: string): (i: nat)
    requires word in segments
    ensures i < |segments| && segments[i] == word && word !in segments[..i]
  {
    if segments[0] == word then 0
    else
      var i := FirstPlace(segments[1..], word);
      assert segments[..i + 1] == [segments[0]] + segments[1..][..i];
      i + 1
  }

  lemma {:induction false} FirstPlaceIsFirst(segments: seq<string>, word: string, k: nat)
    requires k < |segments| && segments[k] == word
    ensures FirstPlace(segments, word) <= k
  {
    if segments[0] != word {
      assert segments[1..][k - 1] == word;
      FirstPlaceIsFirst(segments[1..], word, k - 1);
    }
  }

  /** What is read when a source part is "hash": the segments behind it, up to the first inner "page". */
  lemma ReadTooEarly(parts: seq<string>, hash: string, digits: string) returns (rest: seq<string>)
    requires ColonFree(parts) && "hash" in parts && ':' !in hash && ':' !in digits
    ensures rest != [] && HashFromKey(Join(Segments(parts, hash, digits), ":")) == Join(rest, ":")
    ensures var i := FirstPlace(parts, "hash"); rest[0] == if i + 1 < |parts| then parts[i + 1] else "hash"
  {
    var i := FirstPlace(parts, "hash");
    var tail := parts[i + 1..] + ["hash", hash, "page", digits];
    assert Segments(parts, hash, digits) == FRONT + parts[..i] + (["hash"] + tail);
    ReadAfterHash(FRONT + parts[..i], tail);
    assert ColonFree(tail) && tail[|tail| - 2] == "page";
    rest := ReadToPage(tail, |tail| - 2);
  }

  lemma ReadToPage(tail: seq<string>, k: nat) returns (rest: seq<string>)
    requires ColonFree(tail) && 0 < k < |tail| - 1 && tail[k] == "page"
    ensures rest != [] && rest[0] == tail[0] && BeforePage(Join(tail, ":")) == Join(rest, ":")
  {
    assert tail[1..][k - 1] == "page";
    var j := FirstPlace(tail[1..], "page") + 1;
    FirstPlaceIsFirst(tail[1..], "page", k - 1);
    rest := tail[..j];
    assert tail == rest + (["page"] + tail[j + 1..]) && rest[1..] == tail[1..][..j - 1];
    ReadBeforePage(rest, tail[j + 1..]);
  }

  lemma RoundTripFails(parts: seq<string>, hash: string, digits: string)
    requires ColonFree(parts) && "hash" in parts && Hex(hash) && ':' !in digits
    requires Sorted(parts, OwnKey())
    ensures HashFromKey(Join(Segments(parts, hash, digits), ":")) != hash
  {
    HexBeforeHash(hash);
    LessTotal(hash, "hash");
    var rest := ReadTooEarly(parts, hash, digits);
    var i := FirstPlace(parts, "hash");
    if i + 1 < |parts| {
      assert !KeyLess(OwnKey()(parts[i + 1]), OwnKey()(parts[i]));
    }
    if |rest| > 1 {
      JoinFirst(rest);
      assert Join(rest, ":")[|rest[0]|] == ':';
    }
  }

  lemma HexBeforeHash(hash: string)
    requires Hex(hash)
    ensures Less(hash, "hash")
  {
    if hash != "" {
      assert hash[0] in hash;
    }
  }

  /** The content hash comes back out of a page key exactly when no sanitised source is the word "hash". */
  lemma PageKeyRoundTripExactly(lower: string -> string, sources: seq<string>, hash: string, index: nat)
    requires Hex(hash)
    ensures HashFromKey(PageKey(lower, sources, hash, index)) == hash <==> "hash" !in KeyParts(lower, sources)
  {
    var parts := SortedParts(lower, sources);
    PageKeySegments(lower, sources, hash, index);
    PartsAreClean(lower, sources);
    SortKeeps(KeyParts(lower, sources), OwnKey());
    SortSorts(KeyParts(lower, sources), OwnKey());
    assert forall part :: part in parts <==> part in multiset(parts);
    assert forall part :: part in KeyParts(lower, sources) <==> part in multiset(KeyParts(lower, sources));
    if "hash" in KeyParts(lower, sources) {
      RoundTripFails(parts, hash, Digits(index));
    } else {
      RoundTripHolds(parts, hash, Digits(index));
    }
  }

  /** For any colon-free hash the key round trips when no sanitised source is the word "hash". */
  lemma PageKeyRoundTrip(lower: string -> string, sources: seq<string>, hash: string, index: nat)
    requires ':' !in hash && "hash" !in KeyParts(lower, sources)
    ensures HashFromKey(PageKey(lower, sources, hash, index)) == hash
  {
    var parts := SortedParts(lower, sources);
    PageKeySegments(lower, sources, hash, index);
    PartsAreClean(lower, sources);
    SortKeeps(KeyParts(lower, sources), OwnKey());
    assert forall part :: part in parts <==> part in multiset(parts);
    assert forall part :: part in KeyParts(lower, sources) <==> part in multiset(KeyParts(lower, sources));
    RoundTripHolds(parts, hash, Digits(index));
  }
}
