/** The ASCII digit renderer of src/utils/__init__.py: `DIGITS`, the
    `AsciiTime` object and `time_to_ascii`.

    Each character of the input is looked up in the glyph table (a character
    outside it raises `KeyError`, modelled as the failure carrying that
    character); line i of the picture is line i of every glyph, in input
    order, joined with two spaces, and the lines are joined with newlines. */
module AsciiArt {
  import opened Wrappers
  import opened PyStr

  /** `DIGITS`: five lines per glyph for `0`-`9` and `:`. */
  const Digits: map<char, seq<string>> := map[
    '0' := ["0000", "00 00", "00 00", "00 00", "0000"],
    '1' := ["  11", "  11", "  11", "  11", "  11"],
    '2' := ["2222", "   22", "2222", "22", "2222"],
    '3' := ["3333", "   33", " 333", "   33", "3333"],
    '4' := ["44 44", "44 44", "444444", "   44", "   44"],
    '5' := ["555555", "55", "55555", "    55", "55555"],
    '6' := ["6666", "66", "6666", "66 66", "6666"],
    '7' := ["777777", "   77", "   77", "   77", "   77"],
    '8' := ["8888", "88 88", "8888", "88 88", "8888"],
    '9' := ["9999", "99 99", "9999", "   99", "9999"],
    ':' := ["  ", "88", "  ", "88", "  "]
  ]

  /** Every glyph has exactly five lines, none of which holds a newline. */
  lemma GlyphShape(c: char)
    requires c in Digits
    ensures |Digits[c]| == 5
    ensures forall i :: 0 <= i < 5 ==> '\n' !in Digits[c][i]
  {
  }

  /** The glyphs of the input, looked up one character at a time; the first
      character outside the table is the `KeyError`. */
  function Lookup(s: string): (r: Result<seq<seq<string>>, char>)
    ensures r.Success? <==> forall k :: 0 <= k < |s| ==> s[k] in Digits
    ensures r.Success? ==> |r.value| == |s| && forall k :: 0 <= k < |s| ==> r.value[k] == Digits[s[k]]
    ensures r.Failure? ==> exists k :: 0 <= k < |s| && s[k] == r.error && s[k] !in Digits
                                       && forall j :: 0 <= j < k ==> s[j] in Digits
  {
    if s == [] then Success([])
    else if s[0] !in Digits then Failure(s[0])
    else match Lookup(s[1..]) {
      case Success(g) => Success([Digits[s[0]]] + g)
      case Failure(c) =>
        assert exists k :: 0 < k < |s| && s[k] == c && s[k] !in Digits && forall j :: 0 <= j < k ==> s[j] in Digits by {
          var k :| 0 <= k < |s| - 1 && s[1..][k] == c && s[1..][k] !in Digits
                   && forall j :: 0 <= j < k ==> s[1..][j] in Digits;
          assert s[k + 1] == c && forall j :: 1 <= j < k + 1 ==> s[j] == s[1..][j - 1];
        }
        Failure(c)
    }
  }

  /** The lookup fails with the first character outside the table. */
  lemma {:induction false} LookupStopsAt(s: string, i: nat)
    requires i < |s| && s[i] !in Digits
    requires forall k :: 0 <= k < i ==> s[k] in Digits
    ensures Lookup(s) == Failure(s[i])
  {
    if i > 0 {
      LookupStopsAt(s[1..], i - 1);
    }
  }

  /** How many tuples `zip(*glyphs)` yields: the length of the shortest
      glyph, or none at all when there are no glyphs. */
  function ZipCount(glyphs: seq<seq<string>>): (n: nat)
    ensures forall k :: 0 <= k < |glyphs| ==> n <= |glyphs[k]|
    ensures |glyphs| > 0 ==> exists k :: 0 <= k < |glyphs| && n == |glyphs[k]|
    ensures |glyphs| == 0 ==> n == 0
  {
    if |glyphs| == 0 then 0
    else if |glyphs| == 1 then |glyphs[0]|
    else
      var rest := ZipCount(glyphs[1..]);
      assert forall k :: 1 <= k < |glyphs| ==> glyphs[k] == glyphs[1..][k - 1];
      if |glyphs[0]| <= rest then |glyphs[0]| else rest
  }

  /** `zip(*glyphs)` yields a tuple at position `j` exactly when there is at
      least one glyph and every glyph has a line `j`. */
  lemma ZipHasTuple(glyphs: seq<seq<string>>, j: nat)
    ensures (|glyphs| > 0 && forall k | 0 <= k < |glyphs| :: j < |glyphs[k]|) <==> j < ZipCount(glyphs)
  {
  }

  /** The i-th tuple of `zip(*glyphs)`: line i of every glyph, in order. */
  function LineParts(glyphs: seq<seq<string>>, i: nat): (parts: seq<string>)
    requires i < ZipCount(glyphs)
    ensures |parts| == |glyphs|
  {
    seq(|glyphs|, k requires 0 <= k < |glyphs| => glyphs[k][i])
  }

  /** The lines of the picture before they are joined with newlines. */
  function Lines(glyphs: seq<seq<string>>): (lines: seq<string>)
    ensures |lines| == ZipCount(glyphs)
  {
    seq(ZipCount(glyphs), i requires 0 <= i < ZipCount(glyphs) => Join("  ", LineParts(glyphs, i)))
  }

  /** What `update_time` stores in `time` for input `s`, or the character
      whose lookup raises. */
  function Render(s: string): (r: Result<string, char>)
    ensures r.Success? <==> forall k :: 0 <= k < |s| ==> s[k] in Digits
    ensures r.Failure? ==> r.error in s && r.error !in Digits
  {
    match Lookup(s)
    case Failure(c) => Failure(c)
    case Success(g) => Success(Join("\n", Lines(g)))
  }

  /** The picture of a non-empty input of table characters has exactly five
      lines, and line i is line i of each glyph, in input order, joined with
      two spaces. */
  lemma {:induction false} RenderShape(s: string)
    requires s != []
    requires forall k :: 0 <= k < |s| ==> s[k] in Digits
    ensures Render(s).Success?
    ensures Split(Render(s).value, '\n')
            == seq(5, i requires 0 <= i < 5 => Join("  ", seq(|s|, k requires 0 <= k < |s| => Digits[s[k]][i])))
  {
    var g := Lookup(s).value;
    forall k | 0 <= k < |s| {
      GlyphShape(s[k]);
    }
    assert ZipCount(g) == 5;
    var lines := Lines(g);
    forall i | 0 <= i < 5
      ensures '\n' !in lines[i]
      ensures lines[i] == Join("  ", seq(|s|, k requires 0 <= k < |s| => Digits[s[k]][i]))
    {
      forall k | 0 <= k < |s| ensures '\n' !in LineParts(g, i)[k] {
        GlyphShape(s[k]);
      }
      JoinAvoids("  ", LineParts(g, i), '\n');
      assert LineParts(g, i) == seq(|s|, k requires 0 <= k < |s| => Digits[s[k]][i]);
    }
    SplitJoin(lines, '\n');
  }

  /** The empty input renders as the empty string; an input with a character
      outside the table does not render. */
  lemma RenderEdges(s: string, k: nat)
    ensures Render("") == Success("")
    ensures k < |s| && s[k] !in Digits ==> Render(s).Failure?
  {
  }

  class AsciiTime {
    var mmSs: string
    var time: string

    /** The field assignments of `__init__`, before it renders. */
    constructor (mmSs: string)
      ensures this.mmSs == mmSs && time == ""
    {
      this.mmSs := mmSs;
      time := "";
    }

    /** `AsciiTime(mm_ss)`: the fields are set and `update_time` renders at
        once; the `KeyError` it raises for a character outside the table
        means no object is produced. */
    static method Create(mmSs: string) returns (r: Result<AsciiTime, char>)
      ensures r.Failure? <==> Render(mmSs).Failure?
      ensures r.Failure? ==> r.error == Render(mmSs).error
      ensures r.Success? ==> fresh(r.value) && r.value.mmSs == mmSs && r.value.time == Render(mmSs).value
    {
      var a := new AsciiTime(mmSs);
      var error := a.UpdateTime();
      if error.Some? {
        return Failure(error.value);
      }
      return Success(a);
    }

    /** `update_time`: renders `mmSs` into `time`; on a character outside the
        table it stops with that character and leaves `time` as it was. */
    method UpdateTime() returns (error: Option<char>)
      modifies this`time
      ensures Render(mmSs).Failure? ==> error == Some(Render(mmSs).error) && time == old(time)
      ensures Render(mmSs).Success? ==> error == None && time == Render(mmSs).value
    {
      var digitLines: seq<seq<string>> := [];
      for i := 0 to |mmSs|
        invariant forall k :: 0 <= k < i ==> mmSs[k] in Digits
        invariant |digitLines| == i
        invariant forall k :: 0 <= k < i ==> digitLines[k] == Digits[mmSs[k]]
      {
        var ch := mmSs[i];
        if ch !in Digits {
          LookupStopsAt(mmSs, i);
          return Some(ch);
        }
        digitLines := digitLines + [Digits[ch]];
      }
      assert digitLines == Lookup(mmSs).value;

      var combined: seq<string> := [];
      var tuples := ZipCount(digitLines);
      for j := 0 to tuples
        invariant |combined| == j
        invariant forall n :: 0 <= n < j ==> combined[n] == Join("  ", LineParts(digitLines, n))
      {
        var parts := seq(|digitLines|, k requires 0 <= k < |digitLines| => digitLines[k][j]);
        combined := combined + [Join("  ", parts)];
      }
      assert combined == Lines(digitLines);
      time := Join("\n", combined);
      return None;
    }
  }

  /** `time_to_ascii`: the picture an `AsciiTime` built from the input
      holds, or the `KeyError` its construction raises. */
  method TimeToAscii(timeStr: string) returns (r: Result<string, char>)
    ensures r == Render(timeStr)
  {
    var made := AsciiTime.Create(timeStr);
    match made
    case Failure(c) => return Failure(c);
    case Success(timer) => return Success(timer.time);
  }
}
