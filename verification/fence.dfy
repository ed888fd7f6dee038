/** The block of `src/another_pdf_assistant.py` that cuts a JSON object out of an assistant's answer:
    drop a leading ```` ```json ```` fence, drop a trailing ```` ``` ```` fence, cut everything after the
    last `}` and everything before the first `{`, with Python's slice and `find` semantics throughout. */
module Fence {
  import Text

  const JSON_FENCE := "```json"
  const FENCE := "```"

  /** `if s.startswith('```json'): s = s[6:]`. Six characters go, one fewer than the fence has. */
  function DropOpening(s: string): (r: string)
    ensures Text.StartsWith(s, JSON_FENCE) ==> r == s[6..] && r[0] == 'n'
    ensures !Text.StartsWith(s, JSON_FENCE) ==> r == s
  {
    if Text.StartsWith(s, JSON_FENCE) then
      assert s[6] == JSON_FENCE[6];
      Text.SliceFrom(s, 6)
    else s
  }

  /** `if s.endswith('```'): s = s[:-3]`. */
  function DropClosing(s: string): (r: string)
    ensures Text.EndsWith(s, FENCE) ==> r == s[..|s| - 3]
    ensures !Text.EndsWith(s, FENCE) ==> r == s
  {
    if Text.EndsWith(s, FENCE) then Text.SliceTo(s, -3) else s
  }

  /** `s[:s.rfind('}') + 1]`: everything up to and including the last `}`; with no `}`, the slice `[:0]` is empty. */
  function CutAfterLastBrace(s: string): (r: string)
    ensures |r| <= |s|
    ensures '}' !in s ==> r == []
    ensures '}' in s ==> |r| == Text.RFind(s, '}') + 1
    ensures '}' in s ==> |r| >= 1 && r == s[..|r|] && r[|r| - 1] == '}' && '}' !in s[|r|..]
  {
    var last := Text.RFind(s, '}');
    var r := Text.SliceTo(s, last + 1);
    assert forall k :: 0 <= k < |s[|r|..]| ==> s[|r|..][k] == s[|r| + k];
    r
  }

  /** `s[s.find('{'):]`: everything from the first `{`; with no `{`, `find` gives -1 and the slice `[-1:]`
      keeps the last character only. */
  function CutBeforeFirstBrace(s: string): (r: string)
    ensures |r| <= |s|
    ensures '{' !in s ==> r == (if s == [] then [] else [s[|s| - 1]])
    ensures '{' in s ==> |s| - |r| == Text.Find(s, '{')
    ensures '{' in s ==> |r| >= 1 && r == s[|s| - |r|..] && r[0] == '{' && '{' !in s[..|s| - |r|]
  {
    var first := Text.Find(s, '{');
    Text.SliceFrom(s, first)
  }

  /** The text the trimming leaves; the trailing `strip()` discards its result and changes nothing. */
  function TrimFence(s: string): string {
    Cut(Unfenced(s))
  }

  /** Both cuts: after the last `}`, then before the first `{`. */
  function Cut(b: string): string {
    CutBeforeFirstBrace(CutAfterLastBrace(b))
  }

  /** The text between the fences, where the braces are looked for. */
  function Unfenced(s: string): string {
    DropClosing(DropOpening(s))
  }

  /** With no `}` left between the fences, nothing remains. */
  lemma NoClosingBraceGivesEmpty(s: string)
    requires '}' !in Unfenced(s)
    ensures TrimFence(s) == []
  {
  }

  /** With a `}` but no `{` before the last one, the `[-1:]` slice leaves just that `}`. */
  lemma NoOpeningBraceGivesBrace(s: string)
    requires '}' in Unfenced(s) && '{' !in CutAfterLastBrace(Unfenced(s))
    ensures TrimFence(s) == "}"
  {
  }

  /** When some `{` precedes the last `}`, the result runs from the first `{` to the last `}`, both included. */
  lemma BracedTextIsKept(s: string)
    requires '{' in CutAfterLastBrace(Unfenced(s))
    ensures var b := Unfenced(s);
            var r := TrimFence(s);
            && |r| >= 2 && r[0] == '{' && r[|r| - 1] == '}'
            && r == b[Text.Find(b, '{')..Text.RFind(b, '}') + 1]
  {
    TrimIsCut(s);
    CutsKeepBracedText(Unfenced(s));
  }

  /** Trimming is cutting the text between the fences. */
  lemma TrimIsCut(s: string)
    ensures TrimFence(s) == Cut(Unfenced(s))
  {
  }

  /** Both cuts together, on the text between the fences. */
  lemma {:induction false} CutsKeepBracedText(b: string)
    requires '{' in CutAfterLastBrace(b)
    ensures var r := Cut(b);
            && |r| >= 2 && r[0] == '{' && r[|r| - 1] == '}'
            && r == b[Text.Find(b, '{')..Text.RFind(b, '}') + 1]
  {
    var c := CutAfterLastBrace(b);
    assert '}' in b;
    FindInPrefix(b, c, '{');
    CutIsBothCuts(b);
    var r := Cut(b);
    var f := |c| - |r|;
    assert |c| == Text.RFind(b, '}') + 1 && f == Text.Find(b, '{');
    MiddleSlice(b, c, f, r);
  }

  /** `Cut` is the cut before the first `{` of the cut after the last `}`. */
  lemma CutIsBothCuts(b: string)
    ensures Cut(b) == CutBeforeFirstBrace(CutAfterLastBrace(b))
  {
  }

  /** The suffix from `f` of a prefix `c` of `b`, when `c` ends in `}` and the suffix starts with `{`. */
  lemma MiddleSlice(b: string, c: string, f: nat, r: string)
    requires |c| <= |b| && c == b[..|c|] && |c| >= 1 && c[|c| - 1] == '}'
    requires f < |c| && r == c[f..] && r[0] == '{'
    ensures |r| >= 2 && r[|r| - 1] == '}' && r == b[f..|c|]
  {
    assert r == b[f..|c|];
  }

  /** The first occurrence within a prefix is the first occurrence in the whole text. */
  lemma FindInPrefix(s: string, prefix: string, c: char)
    requires |prefix| <= |s| && prefix == s[..|prefix|] && c in prefix
    ensures Text.Find(s, c) == Text.Find(prefix, c)
  {
    var i := Text.Find(prefix, c);
    var j := Text.Find(s, c);
    assert s[i] == c;
    assert j <= i;
    assert 0 <= j ==> prefix[j] == c;
  }

  /** A bare ```` ```json ```` fence is cut to its `n`, and then to nothing: it holds no brace. */
  lemma BareFenceGivesEmpty()
    ensures DropOpening(JSON_FENCE) == "n"
    ensures TrimFence(JSON_FENCE) == []
  {
    assert Text.StartsWith(JSON_FENCE, JSON_FENCE);
    assert DropOpening(JSON_FENCE) == "n";
    assert !Text.EndsWith("n", FENCE);
    assert '}' !in "n";
  }
}
