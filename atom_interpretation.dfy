/**
  Grounding of atomic propositions in a world: only `cell_free(x,y)` has a
  meaning, read off the world's occupancy grid.
*/
module AtomInterpretation {
  import opened Outcomes
  import opened Numerals
  import opened Worlds

  /** `size_t` arithmetic wraps modulo 2^64. */
  const SIZE_LIMIT: nat := 0x1_0000_0000_0000_0000

  const CELL_FREE: string := "cell_free"

  /** `s.rfind(p, 0) == 0`: `s` starts with `p`. */
  predicate StartsWith(s: string, p: string)
  {
    |p| <= |s| && s[..|p|] == p
  }

  function FindFrom(s: string, c: char, i: nat): (r: Option<nat>)
    requires i <= |s|
    ensures r.Some? ==> i <= r.value < |s| && s[r.value] == c && c !in s[i..r.value]
    ensures r.None? <==> c !in s[i..]
    decreases |s| - i
  {
    if i == |s| then None
    else if s[i] == c then Some(i)
    else
      var r := FindFrom(s, c, i + 1);
      assert s[i..] == [s[i]] + s[i + 1..];
      r
  }

  /** `std::string::find(c)`: the first position of `c`, or none (`npos`). */
  function Find(s: string, c: char): (r: Option<nat>)
    ensures r.Some? ==> r.value < |s| && s[r.value] == c && c !in s[..r.value]
    ensures r.None? <==> c !in s
  {
    assert s[0..] == s;
    FindFrom(s, c, 0)
  }

  /** `std::string::substr(pos, count)`: at most `count` characters from `pos`. */
  function Substr(s: string, pos: nat, count: nat): (t: string)
    requires pos <= |s|
    ensures |t| <= count && pos + |t| <= |s| && t == s[pos..pos + |t|]
    ensures |t| < count ==> pos + |t| == |s|
  {
    if pos + count <= |s| then s[pos..pos + count] else s[pos..]
  }

  /**
    `a - b` on `size_t`: a negative difference wraps around to a huge count.
    Positions inside a string are below 2^64, so this is the difference
    modulo 2^64.
  */
  function SizeDiff(a: nat, b: nat): (d: nat)
    ensures a >= b ==> d == a - b
    ensures a < b && b - a <= SIZE_LIMIT ==> d == SIZE_LIMIT - (b - a)
  {
    if a >= b then a - b else (a - b) % SIZE_LIMIT
  }

  /** `static_cast<int>` of a `uint32_t`: values from 2^31 up become negative. */
  function AsInt32(u: nat): (v: int)
    requires u < UINT32_LIMIT
    ensures u < 0x8000_0000 ==> v == u
    ensures u >= 0x8000_0000 ==> v == u - UINT32_LIMIT && v < 0
  {
    if u < 0x8000_0000 then u else u - UINT32_LIMIT
  }

  /**
    The coordinate texts of a `cell_free` name: x between the first `(` and
    the first `,`, y between the first `,` and the first `)`; none when the
    prefix or any of the three delimiters is missing.
  */
  function CoordinateTexts(name: string): (r: Option<(string, string)>)
    ensures r.Some? ==> StartsWith(name, CELL_FREE) && '(' in name && ',' in name && ')' in name
  {
    if !StartsWith(name, CELL_FREE) then None
    else
      var l, c, r := Find(name, '('), Find(name, ','), Find(name, ')');
      if l.None? || c.None? || r.None? then None
      else
        Some((Substr(name, l.value + 1, SizeDiff(c.value, l.value + 1)),
              Substr(name, c.value + 1, SizeDiff(r.value, c.value + 1))))
  }

  /** The outcome once both coordinates are parsed: in range, whether the cell is `Free`. */
  function CellOutcome(w: World, x: int, y: int): (r: Result<bool, NumberError>)
    requires WellFormed(w.grid)
    ensures r.Ok?
    ensures r == Ok(true) ==> 0 <= x < w.grid.width && 0 <= y < w.grid.height
  {
    if x < 0 || y < 0 || x >= AsInt32(w.grid.width) || y >= AsInt32(w.grid.height) then Ok(false)
    else
      CellIndexInBounds(w.grid, x, y);
      Ok(At(w.grid, x, y) == Free)
  }

  /**
    `interpret_atom`: only `cell_free(x,y)` names are read; both coordinates
    go through `std::stoi`, x first, and its exceptions come back as `Err`.
  */
  function InterpretAtom(w: World, name: string): (r: Result<bool, NumberError>)
    requires WellFormed(w.grid)
    ensures r == Ok(true) || r.Err? ==> StartsWith(name, CELL_FREE)
  {
    match CoordinateTexts(name)
    case None => Ok(false)
    case Some((xText, yText)) =>
      match Stoi(xText)
      case Err(e) => Err(e)
      case Ok(x) =>
        match Stoi(yText)
        case Err(e) => Err(e)
        case Ok(y) => CellOutcome(w, x, y)
  }

  /** No `(`, `,` or `)` in a coordinate's text. */
  predicate Plain(t: string)
  {
    '(' !in t && ',' !in t && ')' !in t
  }

  /** The `cell_free(x,y)` text written for two coordinate texts. */
  function Query(xText: string, yText: string): string
  {
    CELL_FREE + "(" + xText + "," + yText + ")"
  }

  /** A `c` at position `k` with none before it is what `find` returns. */
  lemma FindAt(s: string, c: char, k: nat)
    requires k < |s| && s[k] == c && c !in s[..k]
    ensures Find(s, c) == Some(k)
  {

  }

  lemma ConcatSlices(a: string, b: string)
    ensures (a + b)[..|a|] == a && (a + b)[|a|..] == b
  {
  }

  lemma SliceOfPrefix(a: string, b: string, i: nat, j: nat)
    requires i <= j <= |a|
    ensures (a + b)[i..j] == a[i..j]
  {
  }

  lemma PrefixHasNoDelimiter()
    ensures Plain(CELL_FREE) && ',' !in CELL_FREE + "(" && ')' !in CELL_FREE + "("
  {
  }

  /** The prefix is recognised and the three delimiters are found where they were written. */
  lemma DelimitersOfQuery(xText: string, yText: string)
    requires Plain(xText) && Plain(yText)
    ensures var name := Query(xText, yText);
      && StartsWith(name, CELL_FREE)
      && Find(name, '(') == Some(9)
      && Find(name, ',') == Some(10 + |xText|)
      && Find(name, ')') == Some(11 + |xText| + |yText|)
  {
    PrefixHasNoDelimiter();
    OpeningParenthesis(xText, yText);
    Comma(xText, yText);
    ClosingParenthesis(xText, yText);
  }

  lemma OpeningParenthesis(xText: string, yText: string)
    requires Plain(CELL_FREE)
    ensures StartsWith(Query(xText, yText), CELL_FREE) && Find(Query(xText, yText), '(') == Some(9)
  {
    var l1 := CELL_FREE + "(";
    var l2 := l1 + xText;
    var l3 := l2 + ",";
    var l4 := l3 + yText;
    var name := l4 + ")";
    ConcatSlices(CELL_FREE, "(");
    SliceOfPrefix(l4, ")", 0, 10);
    SliceOfPrefix(l3, yText, 0, 10);
    SliceOfPrefix(l2, ",", 0, 10);
    SliceOfPrefix(l1, xText, 0, 10);
    assert name[..10] == l1;
    assert name[..9] == CELL_FREE;
    FindAt(name, '(', 9);
  }

  lemma Comma(xText: string, yText: string)
    requires ',' !in CELL_FREE + "(" && ',' !in xText
    ensures Find(Query(xText, yText), ',') == Some(10 + |xText|)
  {
    var l2 := CELL_FREE + "(" + xText;
    var l3 := l2 + ",";
    var l4 := l3 + yText;
    var name := l4 + ")";
    ConcatSlices(l2, ",");
    SliceOfPrefix(l4, ")", 0, |l3|);
    SliceOfPrefix(l3, yText, 0, |l3|);
    assert name[..|l3|] == l3;
    assert name[..|l2|] == l2;
    FindAt(name, ',', |l2|);
  }

  lemma ClosingParenthesis(xText: string, yText: string)
    requires ')' !in CELL_FREE + "(" && ')' !in xText && ')' !in yText
    ensures Find(Query(xText, yText), ')') == Some(11 + |xText| + |yText|)
  {
    var l4 := CELL_FREE + "(" + xText + "," + yText;
    var name := l4 + ")";
    ConcatSlices(l4, ")");
    FindAt(name, ')', |l4|);
  }

  /** The two coordinate texts are cut out exactly. */
  lemma QueryTexts(xText: string, yText: string)
    ensures var name := Query(xText, yText);
      var c, r := 10 + |xText|, 11 + |xText| + |yText|;
      && Substr(name, 10, SizeDiff(c, 10)) == xText
      && Substr(name, c + 1, SizeDiff(r, c + 1)) == yText
  {
    var l1 := CELL_FREE + "(";
    var l2 := l1 + xText;
    var l3 := l2 + ",";
    var l4 := l3 + yText;
    var name := l4 + ")";
    assert name == Query(xText, yText);
    ConcatSlices(l1, xText);
    ConcatSlices(l3, yText);
    SliceOfPrefix(l4, ")", 10, |l2|);
    SliceOfPrefix(l3, yText, 10, |l2|);
    SliceOfPrefix(l2, ",", 10, |l2|);
    assert name[10..|l2|] == xText;
    SliceOfPrefix(l4, ")", |l3|, |l4|);
    assert name[|l3|..|l4|] == yText;
  }

  /**
    The `cell_free(x,y)` grammar: the first parse error wins, x before y;
    with both parsed, in-range coordinates give whether the cell is `Free`
    and any other coordinates give false.
  */
  lemma CellFreeGrammar(w: World, xText: string, yText: string)
    requires WellFormed(w.grid) && Plain(xText) && Plain(yText)
    ensures var r := InterpretAtom(w, Query(xText, yText));
      && (Stoi(xText).Err? ==> r == Err(Stoi(xText).error))
      && (Stoi(xText).Ok? && Stoi(yText).Err? ==> r == Err(Stoi(yText).error))
      && (Stoi(xText).Ok? && Stoi(yText).Ok? ==> r == CellOutcome(w, Stoi(xText).value, Stoi(yText).value))
  {
    DelimitersOfQuery(xText, yText);
    QueryTexts(xText, yText);
    assert CoordinateTexts(Query(xText, yText)) == Some((xText, yText));
  }

  lemma IntStringIsPlain(v: int)
    ensures Plain(IntString(v))
  {
    var t := IntString(v);
    forall k | 0 <= k < |t| ensures t[k] != '(' && t[k] != ',' && t[k] != ')' {
    }
  }

  /**
    Round trip with `std::to_string`: the atom written for coordinates (x, y)
    is read back as those coordinates.
  */
  lemma CellFreeQuery(w: World, x: int, y: int)
    requires WellFormed(w.grid)
    requires INT_MIN <= x <= INT_MAX && INT_MIN <= y <= INT_MAX
    ensures InterpretAtom(w, Query(IntString(x), IntString(y))) == CellOutcome(w, x, y)
  {
    IntStringIsPlain(x);
    IntStringIsPlain(y);
    StoiIntString(x);
    StoiIntString(y);
    CellFreeGrammar(w, IntString(x), IntString(y));
  }

  /**
    An x coordinate that does not start with a digit, a sign or white space
    makes the parse throw instead of answering false, whatever the y text.
  */
  lemma NonNumericXThrows(w: World, xText: string, yText: string)
    requires WellFormed(w.grid) && Plain(xText) && Plain(yText)
    requires |xText| == 0 || (!IsDigit(xText[0]) && !IsSpace(xText[0]) && xText[0] != '-' && xText[0] != '+')
    ensures InterpretAtom(w, Query(xText, yText)) == Err(InvalidArgument)
  {
    StoiRejectsNonNumeric(xText);
    CellFreeGrammar(w, xText, yText);
  }

  /** An empty y coordinate after a numeric x makes the parse throw. */
  lemma EmptyYThrows(w: World, x: int)
    requires WellFormed(w.grid) && INT_MIN <= x <= INT_MAX
    ensures InterpretAtom(w, Query(IntString(x), "")) == Err(InvalidArgument)
  {
    StoiRejectsNonNumeric("");
    StoiIntString(x);
    IntStringIsPlain(x);
    CellFreeGrammar(w, IntString(x), "");
  }

  /**
    Names without the `cell_free` prefix, such as `agent_at(...)` and
    `goal_reached(...)`, are false, and so is a `cell_free` name missing a
    delimiter.
  */
  lemma UninterpretedNamesAreFalse(w: World, name: string)
    requires WellFormed(w.grid)
    ensures !StartsWith(name, CELL_FREE) ==> InterpretAtom(w, name) == Ok(false)
    ensures '(' !in name || ',' !in name || ')' !in name ==> InterpretAtom(w, name) == Ok(false)
    ensures InterpretAtom(w, "agent_at(0,0)") == Ok(false)
    ensures InterpretAtom(w, "goal_reached(1)") == Ok(false)
  {
    assert !StartsWith("agent_at(0,0)", CELL_FREE) by {
      assert "agent_at(0,0)"[0] != CELL_FREE[0];
    }
    assert !StartsWith("goal_reached(1)", CELL_FREE) by {
      assert "goal_reached(1)"[0] != CELL_FREE[0];
    }
  }

  /** Only the map matters: the id, the poses and the goals are never read. */
  lemma DependsOnlyOnMap(w1: World, w2: World, name: string)
    requires WellFormed(w1.grid) && w1.grid == w2.grid
    ensures InterpretAtom(w1, name) == InterpretAtom(w2, name)
  {
  }
}
