/** Messages, fragments and chunks, and how fragments are rendered. */
module Content {
  import opened Text

  datatype Message = Message(role: string, content: string)

  datatype Fragment = Fragment(kind: string, content: string, language: string)

  datatype Chunk = Chunk(
    id: string,
    source: string,
    sources: seq<string>,
    fragments: seq<Fragment>,
    pageRefs: seq<string>)

  /** What FragmentText writes in front of the trimmed content. */
  function Opening(fragment: Fragment): string {
    match fragment.kind
    case "code" => "```" + TrimSpace(fragment.language) + "\n"
    case "table" => "Table:\n"
    case "json" => "JSON:\n"
    case "tool-output" => "Tool Output:\n"
    case "log" => "Log:\n"
    case "error-stack" => "Error Stack:\n"
    case "title" => "Title: "
    case _ => ""
  }

  function Closing(fragment: Fragment): string {
    if fragment.kind == "code" then "\n```" else ""
  }

  /** Kinds that FragmentText renders as their bare content. */
  predicate Undecorated(kind: string) {
    kind !in {"code", "table", "json", "tool-output", "log", "error-stack", "title"}
  }

  function FragmentText(fragment: Fragment): string {
    var content := TrimSpace(fragment.content);
    if content == "" then "" else Opening(fragment) + content + Closing(fragment)
  }

  function RenderedParts(fragments: seq<Fragment>): seq<string> {
    if fragments == [] then []
    else
      (if Blank(FragmentText(fragments[0])) then [] else [FragmentText(fragments[0])])
        + RenderedParts(fragments[1..])
  }

  function FragmentsText(fragments: seq<Fragment>): string {
    TrimSpace(Join(RenderedParts(fragments), "\n\n"))
  }

  function ChunkText(chunk: Chunk): string {
    FragmentsText(chunk.fragments)
  }

  function Contents(fragments: seq<Fragment>): seq<string> {
    if fragments == [] then [] else [fragments[0].content] + Contents(fragments[1..])
  }

  lemma {:induction false} ContentsAppend(a: seq<Fragment>, b: seq<Fragment>)
    ensures Contents(a + b) == Contents(a) + Contents(b)
  {
    if a == [] {
      assert a + b == b;
    } else {
      assert (a + b)[1..] == a[1..] + b;
      ContentsAppend(a[1..], b);
    }
  }

  /** The tokenizer: blank text counts nothing, other text is encoded without its outer white space. */
  datatype Tokenizer = Tokenizer(encode: string -> nat) {
    function CountText(text: string): nat {
      var trimmed := TrimSpace(text);
      if trimmed == "" then 0 else encode(trimmed)
    }

    function CountFragment(fragment: Fragment): nat {
      CountText(FragmentText(fragment))
    }

    function CountFragments(fragments: seq<Fragment>): nat {
      if fragments == [] then 0 else CountFragment(fragments[0]) + CountFragments(fragments[1..])
    }

    lemma {:induction false} CountAppend(a: seq<Fragment>, b: seq<Fragment>)
      ensures CountFragments(a + b) == CountFragments(a) + CountFragments(b)
    {
      if a == [] {
        assert a + b == b;
      } else {
        assert (a + b)[1..] == a[1..] + b;
        CountAppend(a[1..], b);
      }
    }

    /** A part of an undecorated kind counts as much as its content. */
    lemma UndecoratedCount(fragment: Fragment)
      requires Undecorated(fragment.kind) && Trimmed(fragment.content)
      ensures CountFragment(fragment) == CountText(fragment.content)
    {
      assert FragmentText(fragment) == fragment.content;
    }
  }
}
