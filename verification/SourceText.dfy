/** Lines, joined text and the non-whitespace size by which chunks are budgeted. */
module SourceText {

  /** Python's `str.isspace`, which `str.strip` and the `\s` of `re` both follow. */
  predicate IsSpace(c: char) {
    var n := c as int;
    || 0x09 <= n <= 0x0d || 0x1c <= n <= 0x20 || n == 0x85 || n == 0xa0
    || n == 0x1680 || 0x2000 <= n <= 0x200a || n == 0x2028 || n == 0x2029
    || n == 0x202f || n == 0x205f || n == 0x3000
  }

  function NwsCount(text: string): nat {
    if text == [] then 0 else NwsCount(text[..|text| - 1]) + (if IsSpace(text[|text| - 1]) then 0 else 1)
  }

  /** `not text.strip()`. */
  predicate Blank(text: string) {
    forall i | 0 <= i < |text| :: IsSpace(text[i])
  }

  function Join(lines: seq<string>): string {
    if lines == [] then ""
    else if |lines| == 1 then lines[0]
    else Join(lines[..|lines| - 1]) + "\n" + lines[|lines| - 1]
  }

  function Split(text: string): (lines: seq<string>)
    ensures |lines| >= 1
  {
    if text == [] then [""]
    else
      var before := Split(text[..|text| - 1]);
      var c := text[|text| - 1];
      if c == '\n' then before + [""]
      else before[..|before| - 1] + [before[|before| - 1] + [c]]
  }

  lemma {:induction false} JoinAppend(lines: seq<string>, line: string)
    requires lines != []
    ensures Join(lines + [line]) == Join(lines) + "\n" + line
  {
    assert (lines + [line])[..|lines|] == lines;
  }

  /** Splitting loses nothing. */
  lemma {:induction false} SplitJoin(text: string)
    ensures Join(Split(text)) == text
  {
    if text != [] {
      var less, c := text[..|text| - 1], text[|text| - 1];
      SplitJoin(less);
      var before := Split(less);
      assert text == less + [c];
      if c == '\n' {
        JoinAppend(before, "");
      } else {
        var init, last := before[..|before| - 1], before[|before| - 1];
        assert before == init + [last];
        if init != [] {
          JoinAppend(init, last);
          JoinAppend(init, last + [c]);
          assert Join(init) + "\n" + (last + [c]) == Join(init) + "\n" + last + [c];
        }
      }
    }
  }

  /** And no line holds a newline, which with the above leaves one way to split. */
  lemma {:induction false} SplitLines(text: string)
    ensures forall i | 0 <= i < |Split(text)| :: '\n' !in Split(text)[i]
  {
    if text != [] { SplitLines(text[..|text| - 1]); }
  }

  lemma NwsOfOne(c: char)
    ensures NwsCount([c]) == if IsSpace(c) then 0 else 1
  {
    assert [c][..0] == [];
  }

  lemma {:induction false} NwsOfConcat(a: string, b: string)
    ensures NwsCount(a + b) == NwsCount(a) + NwsCount(b)
  {
    if b == [] {
      assert a + b == a;
    } else {
      NwsOfConcat(a, b[..|b| - 1]);
      assert (a + b)[..|a + b| - 1] == a + b[..|b| - 1];
    }
  }

  lemma {:induction false} BlankIsWeightless(text: string)
    ensures Blank(text) <==> NwsCount(text) == 0
  {
    if text != [] {
      BlankIsWeightless(text[..|text| - 1]);
      assert Blank(text) <==> Blank(text[..|text| - 1]) && IsSpace(text[|text| - 1]);
    }
  }

  /** The weight of a run of lines, joined by newlines that weigh nothing. */
  function Weight(lines: seq<string>): nat {
    if lines == [] then 0 else Weight(lines[..|lines| - 1]) + NwsCount(lines[|lines| - 1])
  }

  lemma {:induction false} WeightOfConcat(a: seq<string>, b: seq<string>)
    ensures Weight(a + b) == Weight(a) + Weight(b)
  {
    if b == [] {
      assert a + b == a;
    } else {
      WeightOfConcat(a, b[..|b| - 1]);
      assert (a + b)[..|a + b| - 1] == a + b[..|b| - 1];
    }
  }

  lemma {:induction false} JoinWeight(lines: seq<string>)
    ensures NwsCount(Join(lines)) == Weight(lines)
  {
    if |lines| == 1 {
      assert lines[..0] == [];
    } else if |lines| > 1 {
      JoinWeight(lines[..|lines| - 1]);
      NwsOfConcat(Join(lines[..|lines| - 1]) + "\n", lines[|lines| - 1]);
      NwsOfConcat(Join(lines[..|lines| - 1]), "\n");
      assert NwsCount("\n") == NwsCount("") + 0 by { assert "\n"[..0] == ""; }
    }
  }

  /** The text of source lines `lo + 1` to `hi`. */
  function Span(lines: seq<string>, lo: nat, hi: nat): string
    requires lo <= hi <= |lines|
  {
    Join(lines[lo..hi])
  }

  function SpanWeight(lines: seq<string>, lo: nat, hi: nat): nat
    requires lo <= hi <= |lines|
  {
    Weight(lines[lo..hi])
  }

  lemma SpanWeightIsNws(lines: seq<string>, lo: nat, hi: nat)
    requires lo <= hi <= |lines|
    ensures NwsCount(Span(lines, lo, hi)) == SpanWeight(lines, lo, hi)
  {
    JoinWeight(lines[lo..hi]);
  }

  lemma SpanSplits(lines: seq<string>, lo: nat, mid: nat, hi: nat)
    requires lo <= mid <= hi <= |lines|
    ensures SpanWeight(lines, lo, hi) == SpanWeight(lines, lo, mid) + SpanWeight(lines, mid, hi)
  {
    assert lines[lo..hi] == lines[lo..mid] + lines[mid..hi];
    WeightOfConcat(lines[lo..mid], lines[mid..hi]);
  }

  /** A run of lines is blank as text exactly when each of its lines is. */
  lemma {:induction false} BlankSpan(lines: seq<string>, lo: nat, hi: nat)
    requires lo <= hi <= |lines|
    ensures Blank(Span(lines, lo, hi)) <==> forall i | lo <= i < hi :: Blank(lines[i])
    ensures Blank(Span(lines, lo, hi)) <==> SpanWeight(lines, lo, hi) == 0
    decreases hi
  {
    BlankIsWeightless(Span(lines, lo, hi));
    SpanWeightIsNws(lines, lo, hi);
    if lo < hi {
      BlankSpan(lines, lo, hi - 1);
      BlankIsWeightless(lines[hi - 1]);
      assert lines[lo..hi][..hi - 1 - lo] == lines[lo..hi - 1];
    }
  }
}
