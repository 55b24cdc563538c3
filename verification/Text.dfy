/** Strings as the Go standard library sees them: a string is a sequence of runes. */
module Text {

  /** unicode.IsSpace. */
  predicate IsSpace(c: char) {
    || '\t' <= c <= '\r'
    || c == ' ' || c == '\U{0085}' || c == '\U{00A0}' || c == '\U{1680}'
    || '\U{2000}' <= c <= '\U{200A}'
    || c == '\U{2028}' || c == '\U{2029}' || c == '\U{202F}' || c == '\U{205F}' || c == '\U{3000}'
  }

  function TrimLeft(s: string): (r: string)
    ensures |r| <= |s|
  {
    if s == "" then ""
    else if IsSpace(s[0]) then TrimLeft(s[1..])
    else s
  }

  function TrimRight(s: string): (r: string)
    ensures |r| <= |s|
  {
    if s == "" then ""
    else if IsSpace(s[|s| - 1]) then TrimRight(s[..|s| - 1])
    else s
  }

  predicate Trimmed(s: string) {
    s != "" ==> !IsSpace(s[0]) && !IsSpace(s[|s| - 1])
  }

  /** strings.TrimSpace. */
  function TrimSpace(s: string): (r: string)
    ensures |r| <= |s|
  {
    TrimRight(TrimLeft(s))
  }

  lemma {:induction false} TrimLeftFacts(s: string)
    ensures TrimLeft(s) == s[|s| - |TrimLeft(s)|..]
    ensures TrimLeft(s) != "" ==> !IsSpace(TrimLeft(s)[0])
  {
    if s != "" && IsSpace(s[0]) {
      TrimLeftFacts(s[1..]);
    }
  }

  lemma {:induction false} TrimRightFacts(s: string)
    ensures TrimRight(s) == s[..|TrimRight(s)|]
    ensures TrimRight(s) != "" ==> !IsSpace(TrimRight(s)[|TrimRight(s)| - 1])
  {
    if s != "" && IsSpace(s[|s| - 1]) {
      TrimRightFacts(s[..|s| - 1]);
    }
  }

  lemma TrimSpaceTrims(s: string)
    ensures Trimmed(TrimSpace(s))
  {
    TrimLeftFacts(s);
    TrimRightFacts(TrimLeft(s));
  }

  lemma TrimmedStays(s: string)
    requires Trimmed(s)
    ensures TrimSpace(s) == s
  {}

  predicate Blank(s: string) {
    TrimSpace(s) == ""
  }

  /** The text with every white space rune erased. */
  function Erase(s: string): (r: string)
    ensures |r| <= |s|
  {
    if s == "" then "" else (if IsSpace(s[0]) then "" else [s[0]]) + Erase(s[1..])
  }

  lemma {:induction false} EraseMember(s: string, c: char)
    ensures c in Erase(s) <==> c in s && !IsSpace(c)
  {
    if s != "" {
      EraseMember(s[1..], c);
    }
  }

  lemma {:induction false} EraseAppend(a: string, b: string)
    ensures Erase(a + b) == Erase(a) + Erase(b)
  {
    if a == "" {
      assert a + b == b;
    } else {
      assert (a + b)[1..] == a[1..] + b;
      EraseAppend(a[1..], b);
    }
  }

  lemma {:induction false} EraseTrimLeft(s: string)
    ensures Erase(TrimLeft(s)) == Erase(s)
  {
    if s != "" && IsSpace(s[0]) {
      EraseTrimLeft(s[1..]);
    }
  }

  lemma {:induction false} EraseTrimRight(s: string)
    ensures Erase(TrimRight(s)) == Erase(s)
  {
    if s != "" && IsSpace(s[|s| - 1]) {
      EraseTrimRight(s[..|s| - 1]);
      EraseAppend(s[..|s| - 1], [s[|s| - 1]]);
      assert s == s[..|s| - 1] + [s[|s| - 1]];
    }
  }

  lemma EraseTrim(s: string)
    ensures Erase(TrimSpace(s)) == Erase(s)
    ensures Blank(s) <==> Erase(s) == ""
  {
    EraseTrimLeft(s);
    EraseTrimRight(TrimLeft(s));
    TrimSpaceTrims(s);
    if TrimSpace(s) != "" {
      EraseMember(TrimSpace(s), TrimSpace(s)[0]);
    }
  }

  lemma TrimIdempotent(s: string)
    ensures TrimSpace(TrimSpace(s)) == TrimSpace(s)
  {
    TrimSpaceTrims(s);
  }

  /** The erasure of a list of strings read one after the other. */
  function EraseAll(parts: seq<string>): string {
    if parts == [] then "" else Erase(parts[0]) + EraseAll(parts[1..])
  }

  lemma {:induction false} EraseAllAppend(a: seq<string>, b: seq<string>)
    ensures EraseAll(a + b) == EraseAll(a) + EraseAll(b)
  {
    if a == [] {
      assert a + b == b;
    } else {
      assert (a + b)[1..] == a[1..] + b;
      EraseAllAppend(a[1..], b);
    }
  }

  lemma EraseAllOne(s: string)
    ensures EraseAll([s]) == Erase(s)
  {
    assert [s][1..] == [];
  }

  /** Every rune that survives erasure of a list stands in one of its members. */
  lemma {:induction false} EraseAllMember(parts: seq<string>, c: char)
    requires c in EraseAll(parts)
    ensures exists i :: 0 <= i < |parts| && c in parts[i]
  {
    EraseMember(parts[0], c);
    if c !in Erase(parts[0]) {
      EraseAllMember(parts[1..], c);
      var i :| 0 <= i < |parts[1..]| && c in parts[1..][i];
      assert c in parts[i + 1];
    }
  }

  /** strings.Join. */
  function Join(parts: seq<string>, sep: string): string {
    if parts == [] then ""
    else if |parts| == 1 then parts[0]
    else parts[0] + sep + Join(parts[1..], sep)
  }

  lemma {:induction false} EraseJoin(parts: seq<string>, sep: string)
    requires Erase(sep) == ""
    ensures Erase(Join(parts, sep)) == EraseAll(parts)
  {
    if |parts| == 1 {
      EraseAllOne(parts[0]);
      assert parts == [parts[0]];
    } else if |parts| > 1 {
      EraseJoin(parts[1..], sep);
      EraseAppend(parts[0] + sep, Join(parts[1..], sep));
      EraseAppend(parts[0], sep);
    }
  }

  predicate HasPrefix(s: string, p: string) {
    |p| <= |s| && s[..|p|] == p
  }

  /** strings.Index: the first place where `sub` stands in `s`, or -1. */
  function Index(s: string, sub: string): (r: int)
    ensures r == -1 || (0 <= r <= |s| - |sub| && HasPrefix(s[r..], sub))
  {
    if HasPrefix(s, sub) then
      assert s[0..] == s; 0
    else if s == "" then -1
    else
      var r := Index(s[1..], sub);
      if r < 0 then -1 else assert s[r + 1..] == s[1..][r..]; r + 1
  }

  lemma {:induction false} IndexIsFirst(s: string, sub: string, k: nat)
    requires k <= |s| && HasPrefix(s[k..], sub)
    ensures 0 <= Index(s, sub) <= k
  {
    if k > 0 && !HasPrefix(s, sub) {
      assert s[k..] == s[1..][k - 1..];
      IndexIsFirst(s[1..], sub, k - 1);
    } else {
      assert s[0..] == s;
    }
  }

  /** strings.Split for a nonempty separator. */
  function Split(s: string, sep: string): (r: seq<string>)
    requires sep != ""
    ensures r != []
    decreases |s|
  {
    var i := Index(s, sep);
    if i < 0 then [s] else [s[..i]] + Split(s[i + |sep|..], sep)
  }

  function TotalLength(parts: seq<string>): nat {
    if parts == [] then 0 else |parts[0]| + TotalLength(parts[1..])
  }

  lemma CutAround(s: string, sep: string, i: nat)
    requires i <= |s| && HasPrefix(s[i..], sep)
    ensures s == s[..i] + sep + s[i + |sep|..]
  {
    assert s == s[..i] + s[i..];
    assert s[i..] == sep + s[i..][|sep|..];
    assert s[i..][|sep|..] == s[i + |sep|..];
  }

  /** Splitting drops the separators and nothing else. */
  lemma {:induction false} SplitJoin(s: string, sep: string)
    requires sep != ""
    ensures Join(Split(s, sep), sep) == s
    decreases |s|
  {
    var i := Index(s, sep);
    if i >= 0 {
      var rest := s[i + |sep|..];
      SplitJoin(rest, sep);
      assert Split(s, sep)[1..] == Split(rest, sep);
      CutAround(s, sep, i);
    }
  }

  lemma {:induction false} SplitShrinks(s: string, sep: string)
    requires sep != ""
    ensures TotalLength(Split(s, sep)) <= |s|
    ensures |Split(s, sep)| > 1 ==> TotalLength(Split(s, sep)) < |s|
    decreases |s|
  {
    var i := Index(s, sep);
    if i >= 0 {
      SplitShrinks(s[i + |sep|..], sep);
      assert Split(s, sep)[1..] == Split(s[i + |sep|..], sep);
    } else {
      assert Split(s, sep)[1..] == [];
    }
  }

  lemma EraseSplit(s: string, sep: string)
    requires sep != "" && Erase(sep) == ""
    ensures EraseAll(Split(s, sep)) == Erase(s)
  {
    SplitJoin(s, sep);
    EraseJoin(Split(s, sep), sep);
  }

  /** strings.ReplaceAll for a nonempty pattern. */
  function ReplaceAll(s: string, from: string, to: string): string
    requires from != ""
  {
    Join(Split(s, from), to)
  }

  lemma EraseReplaceAll(s: string, from: string, to: string)
    requires from != "" && Erase(from) == "" && Erase(to) == ""
    ensures Erase(ReplaceAll(s, from, to)) == Erase(s)
  {
    EraseSplit(s, from);
    EraseJoin(Split(s, from), to);
  }

  function NewlineRun(s: string): (k: nat)
    ensures k <= |s|
    ensures forall i :: 0 <= i < k ==> s[i] == '\n'
    ensures s != "" && s[0] == '\n' ==> k > 0
  {
    if s == "" || s[0] != '\n' then 0 else 1 + NewlineRun(s[1..])
  }

  /** The pattern \n{3,} replaced by two line breaks. */
  function CollapseBlankLines(s: string): string
    decreases |s|
  {
    if s == "" then ""
    else if s[0] != '\n' then [s[0]] + CollapseBlankLines(s[1..])
    else
      var k := NewlineRun(s);
      (if k >= 3 then "\n\n" else s[..k]) + CollapseBlankLines(s[k..])
  }

  lemma {:induction false} EraseSpaces(s: string)
    requires forall i :: 0 <= i < |s| ==> IsSpace(s[i])
    ensures Erase(s) == ""
  {
    if s != "" {
      EraseSpaces(s[1..]);
    }
  }

  lemma EraseReplacePrefix(from: string, to: string, rest: string, rest2: string)
    requires Erase(from) == Erase(to) && Erase(rest) == Erase(rest2)
    ensures Erase(from + rest) == Erase(to + rest2)
  {
    EraseAppend(from, rest);
    EraseAppend(to, rest2);
  }

  lemma {:induction false} EraseCollapse(s: string)
    ensures Erase(CollapseBlankLines(s)) == Erase(s)
    decreases |s|
  {
    if s != "" {
      var k := if s[0] != '\n' then 1 else NewlineRun(s);
      var head := if k >= 3 then "\n\n" else s[..k];
      EraseCollapse(s[k..]);
      if k >= 3 {
        EraseSpaces("\n\n");
        EraseSpaces(s[..k]);
      }
      EraseReplacePrefix(head, s[..k], CollapseBlankLines(s[k..]), s[k..]);
      assert s == s[..k] + s[k..];
      assert s[0] != '\n' ==> s[..k] == [s[0]];
    }
  }
}
