/** The expression-only helpers of rgit/tools.py that are not about paths:
    `strict_int`, which reads a count printed by git, and
    `combine_box_symbols`, which merges two box-drawing glyphs where a
    table's title box meets the table below it. */
module Tools {
  import opened Wrappers

  // ---------------------------------------------------------------------
  // strict_int

  /** What `\d` matches in this model: an ASCII decimal digit. */
  predicate IsDigit(c: char) {
    '0' <= c <= '9'
  }

  /** One digit or more, and nothing else. */
  predicate IsDigits(s: string) {
    s != [] && forall i :: 0 <= i < |s| ==> IsDigit(s[i])
  }

  /** The part of `x` that `^\d+$` has to cover: Python's `$` also matches
      just before one final newline, so that newline is not part of it. */
  function Numeral(x: string): (s: string)
    ensures |s| <= |x| && s == x[..|s|]
    ensures |x| - |s| <= 1
  {
    if x != [] && x[|x| - 1] == '\n' then x[..|x| - 1] else x
  }

  function DigitValue(c: char): (d: nat)
    requires IsDigit(c)
    ensures d < 10
  {
    (c as int - '0' as int) as nat
  }

  function DigitChar(d: nat): (c: char)
    requires d < 10
    ensures IsDigit(c) && DigitValue(c) == d
  {
    (d + '0' as int) as char
  }

  /** The decimal value of a run of digits, read from the last digit up. */
  function Value(s: string): nat
    requires forall i :: 0 <= i < |s| ==> IsDigit(s[i])
  {
    if s == [] then 0 else Value(s[..|s| - 1]) * 10 + DigitValue(s[|s| - 1])
  }

  /** `strict_int(x)`: the assertion on `^\d+$`, then `int(x)`, which
      ignores the newline the pattern lets through. */
  function StrictInt(x: string): (r: Result<nat>)
    ensures r.Ok? <==> IsDigits(Numeral(x))
    ensures r.Err? ==> r.error == AssertionError
  {
    var s := Numeral(x);
    if IsDigits(s) then Ok(Value(s)) else Err(AssertionError)
  }

  /** How Python prints a natural number: decimal, no leading zeros. */
  function ShowNat(n: nat): (s: string)
    ensures IsDigits(s)
    ensures s[0] != '0' || n == 0
  {
    if n < 10 then [DigitChar(n)] else ShowNat(n / 10) + [DigitChar(n % 10)]
  }

  lemma {:induction false} ValueShowNat(n: nat)
    ensures Value(ShowNat(n)) == n
  {
    var s := ShowNat(n);
    if n < 10 {
      assert s[..0] == [];
    } else {
      assert s[..|s| - 1] == ShowNat(n / 10);
      ValueShowNat(n / 10);
    }
  }

  /** Every number git prints is read back, with or without the newline
      that ends git's output. */
  lemma StrictIntShowNat(n: nat)
    ensures StrictInt(ShowNat(n)) == Ok(n)
    ensures StrictInt(ShowNat(n) + "\n") == Ok(n)
  {
    var s := ShowNat(n);
    ValueShowNat(n);
    assert Numeral(s) == s;
    assert (s + "\n")[..|s|] == s;
    assert Numeral(s + "\n") == s;
  }

  /** The text that is not a plain run of digits is refused: nothing at all,
      a sign, surrounding blanks, or more than one newline. */
  lemma StrictIntRejects(s: string)
    ensures StrictInt("").Err? && StrictInt("\n").Err?
    ensures StrictInt("-" + s).Err? && StrictInt("+" + s).Err?
    ensures StrictInt(" " + s).Err?
    ensures StrictInt(s + " ").Err?
    ensures StrictInt(s + "\n\n").Err?
  {
    assert Numeral("\n") == [];
    var signs := ["-" + s, "+" + s, " " + s];
    forall x | x in signs
      ensures StrictInt(x).Err?
    {
      var n := Numeral(x);
      if n != [] {
        assert n[0] == x[0];
      }
    }
    var spaced := s + " ";
    assert Numeral(spaced) == spaced;
    assert spaced[|spaced| - 1] == ' ';
    var doubled := s + "\n\n";
    assert Numeral(doubled) == s + "\n";
    assert (s + "\n")[|s|] == '\n';
  }

  // ---------------------------------------------------------------------
  // combine_box_symbols

  /** Row and column names of a box table, as at rgit/tools.py:7-20. */
  const HeaderTop := 0
  const HeaderContent := 1
  const HeaderSeparator := 2
  const HeaderBottom := 3
  const HeaderBottomBodyTop := 4
  const BodyTop := 5
  const BodyContent := 6
  const BodySeparator := 7
  const BodyBottom := 8

  const Left := 0
  const Content := 1
  const Separator := 2
  const Right := 3

  /** Nine rows of four glyphs: left edge, fill, separator, right edge. */
  predicate ValidBox(box: seq<string>) {
    |box| == 9 && forall row :: 0 <= row < 9 ==> |box[row]| == 4
  }

  /** `box_with_header`, the light-line table the program draws with. */
  const Box: seq<string> := [
    "┌─┬┐",
    "│h││",
    "├─┼┤",
    "└─┴┘",
    "╞═╪╡",
    "┌─┬┐",
    "│b││",
    "├─┼┤",
    "└─┴┘"
  ]

  /** A junction the combiner knows: the glyph already on the line, the
      glyph drawn over it, and what the pair becomes. */
  datatype Junction = Junction(below: char, above: char, joined: char)

  /** The junctions of a box, in the order the combiner tries them: for the
      header rows and then for the body rows, a top row glyph met by a
      bottom row glyph. */
  function Junctions(box: seq<string>): (t: seq<Junction>)
    requires ValidBox(box)
    ensures |t| == 12
  {
    JunctionsOf(box, HeaderTop, HeaderBottom, HeaderSeparator)
    + JunctionsOf(box, BodyTop, BodyBottom, BodySeparator)
  }

  function JunctionsOf(box: seq<string>, top: nat, bottom: nat, separator: nat): (t: seq<Junction>)
    requires ValidBox(box) && top < 9 && bottom < 9 && separator < 9
    ensures |t| == 6
  {
    [ Junction(box[top][Left], box[bottom][Left], box[separator][Left]),
      Junction(box[top][Content], box[bottom][Right], box[bottom][Separator]),
      Junction(box[top][Separator], box[bottom][Right], box[separator][Separator]),
      Junction(box[top][Separator], box[bottom][Content], box[top][Separator]),
      Junction(box[top][Right], box[bottom][Right], box[separator][Right]),
      Junction(box[top][Right], box[bottom][Content], box[top][Separator]) ]
  }

  /** The first junction in `table` for the pair, if any. */
  function Lookup(table: seq<Junction>, below: char, above: char): (r: Option<char>)
    ensures r.Some? <==> exists k :: 0 <= k < |table| && table[k].below == below && table[k].above == above
    ensures r.Some? ==> exists k :: 0 <= k < |table| && table[k] == Junction(below, above, r.value)
  {
    if table == [] then None
    else if table[0].below == below && table[0].above == above then Some(table[0].joined)
    else
      var r := Lookup(table[1..], below, above);
      assert forall k :: 0 < k < |table| ==> table[k] == table[1..][k - 1];
      r
  }

  /** `combine_box_symbols(box, first, second)`: `first` is the glyph already
      drawn at a position, if any, and `second` the one drawn over it. */
  function CombineBoxSymbols(box: seq<string>, first: Option<char>, second: char): (r: Result<char>)
    requires ValidBox(box)
    ensures first.None? ==> r == Ok(second)
    ensures first.Some? && (second == ' ' || first.value == second) ==> r == Ok(first.value)
    ensures r.Err? ==> r.error == NotImplementedError
  {
    if first.None? then Ok(second)
    else
      var a := first.value;
      if second == ' ' then Ok(a)
      else if a == second then Ok(a)
      else if a == box[HeaderTop][Left] && second == box[HeaderBottom][Left] then Ok(box[HeaderSeparator][Left])
      else if a == box[HeaderTop][Content] && second == box[HeaderBottom][Right] then Ok(box[HeaderBottom][Separator])
      else if a == box[HeaderTop][Separator] && second == box[HeaderBottom][Right] then Ok(box[HeaderSeparator][Separator])
      else if a == box[HeaderTop][Separator] && second == box[HeaderBottom][Content] then Ok(a)
      else if a == box[HeaderTop][Right] && second == box[HeaderBottom][Right] then Ok(box[HeaderSeparator][Right])
      else if a == box[HeaderTop][Right] && second == box[HeaderBottom][Content] then Ok(box[HeaderTop][Separator])
      else if a == box[BodyTop][Left] && second == box[BodyBottom][Left] then Ok(box[BodySeparator][Left])
      else if a == box[BodyTop][Content] && second == box[BodyBottom][Right] then Ok(box[BodyBottom][Separator])
      else if a == box[BodyTop][Separator] && second == box[BodyBottom][Right] then Ok(box[BodySeparator][Separator])
      else if a == box[BodyTop][Separator] && second == box[BodyBottom][Content] then Ok(a)
      else if a == box[BodyTop][Right] && second == box[BodyBottom][Right] then Ok(box[BodySeparator][Right])
      else if a == box[BodyTop][Right] && second == box[BodyBottom][Content] then Ok(box[BodyTop][Separator])
      else Err(NotImplementedError)
  }

  /** Two different glyphs, neither of them a blank on top, combine exactly
      as the junction table says, and a pair the table lacks raises. */
  lemma CombineByJunctions(box: seq<string>, below: char, above: char)
    requires ValidBox(box)
    requires above != ' ' && below != above
    ensures CombineBoxSymbols(box, Some(below), above)
         == (match Lookup(Junctions(box), below, above)
             case Some(c) => Ok(c)
             case None => Err(NotImplementedError))
  {
    var head := JunctionsOf(box, HeaderTop, HeaderBottom, HeaderSeparator);
    var body := JunctionsOf(box, BodyTop, BodyBottom, BodySeparator);
    assert Junctions(box) == head + body;
    LookupAppend(head, body, below, above);
    LookupSix(head, below, above);
    LookupSix(body, below, above);
  }

  /** A junction applies to a pair. */
  predicate Hits(j: Junction, below: char, above: char) {
    j.below == below && j.above == above
  }

  lemma LookupSix(t: seq<Junction>, below: char, above: char)
    requires |t| == 6
    ensures Lookup(t, below, above)
         == if Hits(t[0], below, above) then Some(t[0].joined)
            else if Hits(t[1], below, above) then Some(t[1].joined)
            else if Hits(t[2], below, above) then Some(t[2].joined)
            else if Hits(t[3], below, above) then Some(t[3].joined)
            else if Hits(t[4], below, above) then Some(t[4].joined)
            else if Hits(t[5], below, above) then Some(t[5].joined)
            else None
  {
    var r5 := if Hits(t[5], below, above) then Some(t[5].joined) else None;
    var r4 := if Hits(t[4], below, above) then Some(t[4].joined) else r5;
    var r3 := if Hits(t[3], below, above) then Some(t[3].joined) else r4;
    var r2 := if Hits(t[2], below, above) then Some(t[2].joined) else r3;
    var r1 := if Hits(t[1], below, above) then Some(t[1].joined) else r2;
    assert t[5..][1..] == [];
    assert Lookup(t[5..], below, above) == r5;
    assert t[4..][1..] == t[5..];
    assert Lookup(t[4..], below, above) == r4;
    assert t[3..][1..] == t[4..];
    assert Lookup(t[3..], below, above) == r3;
    assert t[2..][1..] == t[3..];
    assert Lookup(t[2..], below, above) == r2;
    assert t[1..][1..] == t[2..];
    assert Lookup(t[1..], below, above) == r1;
  }

  lemma {:induction false} LookupAppend(a: seq<Junction>, b: seq<Junction>, below: char, above: char)
    ensures Lookup(a + b, below, above)
         == if Lookup(a, below, above).Some? then Lookup(a, below, above) else Lookup(b, below, above)
  {
    if a != [] {
      assert (a + b)[1..] == a[1..] + b;
      LookupAppend(a[1..], b, below, above);
    } else {
      assert a + b == b;
    }
  }

  /** A combined glyph is always one of the two glyphs given or a glyph of
      the box itself. */
  lemma CombineStaysInBox(box: seq<string>, first: Option<char>, second: char)
    requires ValidBox(box)
    ensures CombineBoxSymbols(box, first, second).Ok? ==>
              var c := CombineBoxSymbols(box, first, second).value;
              c == second || (first.Some? && c == first.value)
              || exists row, col :: 0 <= row < 9 && 0 <= col < 4 && box[row][col] == c
  {
  }

  /** With the program's box, drawing the bottom of a title box over the top
      of the table below it turns each corner and crossing into the
      matching tee or cross, and any other pair of different lines is
      refused. */
  lemma TitleJoins()
    ensures ValidBox(Box)
    ensures CombineBoxSymbols(Box, Some('┌'), '└') == Ok('├')
    ensures CombineBoxSymbols(Box, Some('─'), '┘') == Ok('┴')
    ensures CombineBoxSymbols(Box, Some('┬'), '┘') == Ok('┼')
    ensures CombineBoxSymbols(Box, Some('┬'), '─') == Ok('┬')
    ensures CombineBoxSymbols(Box, Some('┐'), '┘') == Ok('┤')
    ensures CombineBoxSymbols(Box, Some('┐'), '─') == Ok('┬')
    ensures CombineBoxSymbols(Box, Some('─'), '└') == Err(NotImplementedError)
    ensures CombineBoxSymbols(Box, None, '└') == Ok('└')
  {
  }
}
