/** The text fold of the translation handler: the OCR service's ordered,
    typed blocks become one string holding the text of every LINE block,
    each followed by a line break. */
module Extraction {
  import opened Js

  /** One block of the OCR result: its `BlockType` tag and its `Text`
      property (absent on some block kinds). */
  datatype Block = Block(blockType: string, text: Value)

  /** The only block kind the fold keeps (a strict `===` comparison). */
  const LineType: string := "LINE"

  predicate IsLine(b: Block) {
    b.blockType == LineType
  }

  /** What `block.Text + '\n'` yields for a block. */
  function TextOf(b: Block): string {
    Display(b.text)
  }

  /** The texts of the LINE blocks, in input order (filter, then map):
      one text per LINE block. */
  function LineTexts(bs: seq<Block>): (ts: seq<string>)
    ensures |ts| == LineCount(bs)
  {
    if |bs| == 0 then []
    else (if IsLine(bs[0]) then [TextOf(bs[0])] else []) + LineTexts(bs[1..])
  }

  /** Each text followed by a line break, all joined (concat). */
  function Terminated(ts: seq<string>): (s: string) {
    if |ts| == 0 then "" else ts[0] + "\n" + Terminated(ts[1..])
  }

  /** The extracted text: the reference definition of the fold. */
  function ExtractedText(bs: seq<Block>): string {
    Terminated(LineTexts(bs))
  }

  /** What one block appends to the accumulator in the `forEach` body. */
  function Contribution(b: Block): string {
    if IsLine(b) then TextOf(b) + "\n" else ""
  }

  /** The `forEach` loop of the handler, as written: start from the empty
      string and append `Text + '\n'` for each LINE block in turn. */
  method ExtractText(bs: seq<Block>) returns (extracted: string)
    ensures extracted == ExtractedText(bs)
  {
    extracted := "";
    var i := 0;
    while i < |bs|
      invariant 0 <= i <= |bs|
      invariant extracted == ExtractedText(bs[..i])
    {
      ExtractedTextSnoc(bs[..i], bs[i]);
      assert bs[..i + 1] == bs[..i] + [bs[i]];
      if bs[i].blockType == LineType {
        extracted := extracted + TextOf(bs[i]) + "\n";
      }
      i := i + 1;
    }
    assert bs[..i] == bs;
  }

  /** Filtering distributes over concatenation, so it keeps input order. */
  lemma {:induction false} LineTextsAppend(a: seq<Block>, b: seq<Block>)
    ensures LineTexts(a + b) == LineTexts(a) + LineTexts(b)
  {
    if |a| == 0 {
      assert a + b == b;
    } else {
      assert (a + b)[1..] == a[1..] + b;
      LineTextsAppend(a[1..], b);
    }
  }

  lemma {:induction false} TerminatedAppend(x: seq<string>, y: seq<string>)
    ensures Terminated(x + y) == Terminated(x) + Terminated(y)
  {
    if |x| == 0 {
      assert x + y == y;
    } else {
      assert (x + y)[1..] == x[1..] + y;
      TerminatedAppend(x[1..], y);
    }
  }

  /** The fold is a monoid homomorphism: the text of a concatenation of
      block lists is the concatenation of their texts. */
  lemma ExtractedTextAppend(a: seq<Block>, b: seq<Block>)
    ensures ExtractedText(a + b) == ExtractedText(a) + ExtractedText(b)
  {
    LineTextsAppend(a, b);
    TerminatedAppend(LineTexts(a), LineTexts(b));
  }

  /** Appending one block appends exactly its contribution. */
  lemma ExtractedTextSnoc(a: seq<Block>, b: Block)
    ensures ExtractedText(a + [b]) == ExtractedText(a) + Contribution(b)
  {
    ExtractedTextAppend(a, [b]);
    assert [b][1..] == [];
    assert LineTexts([b]) == (if IsLine(b) then [TextOf(b)] else []);
    if IsLine(b) {
      assert Terminated([TextOf(b)]) == TextOf(b) + "\n" + Terminated([]);
    }
  }

  /** A block that is not a LINE contributes nothing, wherever it sits. */
  lemma NonLineContributesNothing(a: seq<Block>, b: Block, c: seq<Block>)
    requires !IsLine(b)
    ensures ExtractedText(a + [b] + c) == ExtractedText(a + c)
  {
    ExtractedTextAppend(a + [b], c);
    ExtractedTextSnoc(a, b);
    ExtractedTextAppend(a, c);
  }

  /** The number of LINE blocks. */
  function LineCount(bs: seq<Block>): nat {
    if |bs| == 0 then 0 else (if IsLine(bs[0]) then 1 else 0) + LineCount(bs[1..])
  }

  /** Exactly the LINE texts, in order: the extracted lines are as many as
      the LINE blocks, and the LINE block at index `i` supplies line number
      `k`, where `k` is the number of LINE blocks before it. */
  lemma LineTextsExact(bs: seq<Block>, i: int)
    requires 0 <= i < |bs| && IsLine(bs[i])
    ensures LineCount(bs[..i]) < |LineTexts(bs)|
    ensures LineTexts(bs)[LineCount(bs[..i])] == TextOf(bs[i])
  {
    assert bs == bs[..i] + bs[i..];
    LineTextsAppend(bs[..i], bs[i..]);
    assert LineTexts(bs[i..])[0] == TextOf(bs[i]);
  }

  /** Sum over the blocks of what each adds to the length. */
  function ContributedLength(bs: seq<Block>): nat {
    if |bs| == 0 then 0
    else (if IsLine(bs[0]) then |TextOf(bs[0])| + 1 else 0) + ContributedLength(bs[1..])
  }

  /** The length of the extracted text is the sum of (|text| + 1) over the
      LINE blocks. */
  lemma {:induction false} ExtractedTextLength(bs: seq<Block>)
    ensures |ExtractedText(bs)| == ContributedLength(bs)
  {
    if |bs| > 0 {
      ExtractedTextLength(bs[1..]);
      assert bs == [bs[0]] + bs[1..];
      ExtractedTextAppend([bs[0]], bs[1..]);
      assert [bs[0]][1..] == [];
    }
  }

  /** The text is empty exactly when no block is a LINE block; an empty
      result is an ordinary value, not a failure. */
  lemma {:induction false} ExtractedTextEmptyIff(bs: seq<Block>)
    ensures ExtractedText(bs) == "" <==> forall i :: 0 <= i < |bs| ==> !IsLine(bs[i])
  {
    if |bs| > 0 {
      ExtractedTextEmptyIff(bs[1..]);
      assert bs == [bs[0]] + bs[1..];
      ExtractedTextAppend([bs[0]], bs[1..]);
      assert [bs[0]][1..] == [];
      if IsLine(bs[0]) {
        assert |ExtractedText([bs[0]])| > 0;
      } else {
        assert forall i :: 1 <= i < |bs| ==> bs[i] == bs[1..][i - 1];
      }
    }
  }

  /** Index of the first line break in `s`, or `|s|` if there is none. */
  function FirstBreak(s: string): (i: nat)
    ensures i <= |s|
    ensures i < |s| ==> s[i] == '\n'
    ensures forall j :: 0 <= j < i ==> s[j] != '\n'
  {
    if |s| == 0 || s[0] == '\n' then 0 else 1 + FirstBreak(s[1..])
  }

  /** Splits a text back into its lines; a final line without a break is
      kept as well. */
  function SplitLines(s: string): seq<string>
    decreases |s|
  {
    var i := FirstBreak(s);
    if i == |s| then (if |s| == 0 then [] else [s])
    else [s[..i]] + SplitLines(s[i + 1..])
  }

  predicate NoBreak(t: string) {
    forall j :: 0 <= j < |t| ==> t[j] != '\n'
  }

  /** A line without breaks, then a break, splits off as the first line. */
  lemma SplitFirstLine(t: string, rest: string)
    requires NoBreak(t)
    ensures SplitLines(t + "\n" + rest) == [t] + SplitLines(rest)
  {
    var s := t + "\n" + rest;
    assert s[|t|] == '\n';
    assert forall j :: 0 <= j < |t| ==> s[j] == t[j];
    assert FirstBreak(s) == |t|;
    assert s[..|t|] == t;
    assert s[|t| + 1..] == rest;
  }

  /** When no text contains a line break, the joined form loses nothing:
      splitting it at line breaks gives the texts back. */
  lemma {:induction false} SplitTerminated(ts: seq<string>)
    requires forall k :: 0 <= k < |ts| ==> NoBreak(ts[k])
    ensures SplitLines(Terminated(ts)) == ts
  {
    if |ts| > 0 {
      SplitFirstLine(ts[0], Terminated(ts[1..]));
      SplitTerminated(ts[1..]);
    }
  }

  /** The fold's inverse: a Textract LINE never spans a line break, and for
      such input the LINE texts are recovered from the extracted text. */
  lemma ExtractedTextRoundTrip(bs: seq<Block>)
    requires forall i :: 0 <= i < |bs| && IsLine(bs[i]) ==> NoBreak(TextOf(bs[i]))
    ensures SplitLines(ExtractedText(bs)) == LineTexts(bs)
  {
    LineTextsNoBreak(bs);
    SplitTerminated(LineTexts(bs));
  }

  lemma {:induction false} LineTextsNoBreak(bs: seq<Block>)
    requires forall i :: 0 <= i < |bs| && IsLine(bs[i]) ==> NoBreak(TextOf(bs[i]))
    ensures forall k :: 0 <= k < |LineTexts(bs)| ==> NoBreak(LineTexts(bs)[k])
  {
    if |bs| > 0 {
      assert forall i :: 1 <= i < |bs| ==> bs[i] == bs[1..][i - 1];
      LineTextsNoBreak(bs[1..]);
    }
  }

  /** The worked example: LINE "A", a non-LINE block, LINE "B". */
  lemma ExampleThreeBlocks()
    ensures ExtractedText([Block("LINE", Str("A")), Block("WORD", Str("A")), Block("LINE", Str("B"))])
            == "A\nB\n"
  {
  }
}
