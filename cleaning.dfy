/**
 * Column cleaning of a data frame: text columns are stripped of surrounding
 * whitespace and title-cased, with missing values turned into empty text,
 * and missing values of numeric columns are filled with the column's median
 * or mean. Both operations copy the frame and reassign the listed columns of
 * the copy one by one, so the frame they are given is left as it was.
 */
module Cleaning {
  import opened Facts

  // ---------------------------------------------------------------------
  // Frames
  // ---------------------------------------------------------------------

  /** A cell: missing (NaN/None), text, or a number. */
  datatype Cell = Missing | Text(text: string) | Number(x: real)

  /** A column: whether its dtype is numeric, and its cells in row order. */
  datatype Column = Column(numeric: bool, cells: seq<Cell>)

  /** A data frame: its columns by name. */
  class Frame {
    var columns: map<string, Column>

    constructor (columns: map<string, Column>)
      ensures this.columns == columns
    {
      this.columns := columns;
    }

    /** `df.copy()`: a new frame with the same columns. */
    method Copy() returns (f: Frame)
      ensures fresh(f) && f.columns == columns
    {
      f := new Frame(columns);
    }
  }

  // ---------------------------------------------------------------------
  // Characters
  // ---------------------------------------------------------------------

  /** The characters Python's `str.isspace` accepts. */
  predicate IsSpace(c: char)
  {
    c == ' ' || ('\t' <= c <= '\r') || ('\U{1C}' <= c <= '\U{1F}') || c == '\U{85}' || c == '\U{A0}'
    || c == '\U{1680}' || ('\U{2000}' <= c <= '\U{200A}') || c == '\U{2028}' || c == '\U{2029}'
    || c == '\U{202F}' || c == '\U{205F}' || c == '\U{3000}'
  }

  /** Upper-case letters: A-Z and the Latin-1 letters from À to Þ. */
  predicate IsUpper(c: char)
  {
    ('A' <= c <= 'Z') || ('\U{C0}' <= c <= '\U{DE}' && c != '\U{D7}')
  }

  /** Lower-case letters: a-z, the Latin-1 letters from ß to ÿ, and ª, µ
      and º, which Python also counts as cased. */
  predicate IsLower(c: char)
  {
    ('a' <= c <= 'z') || ('\U{DF}' <= c <= '\U{FF}' && c != '\U{F7}')
    || c == '\U{AA}' || c == '\U{B5}' || c == '\U{BA}'
  }

  /** The lower-case letters whose upper case is one Latin-1 letter. */
  predicate HasLatinUpper(c: char)
  {
    ('a' <= c <= 'z') || ('\U{E0}' <= c <= '\U{FE}' && c != '\U{F7}')
  }

  /** Letters that have case; `title` starts a word after any other
      character. */
  predicate Cased(c: char)
  {
    IsUpper(c) || IsLower(c)
  }

  /** The upper case of a letter that has a one-letter upper case. */
  function Upper(c: char): (u: char)
    ensures Cased(u) == Cased(c) && IsSpace(u) == IsSpace(c)
    ensures HasLatinUpper(c) ==> IsLower(c) && IsUpper(u)
    ensures !HasLatinUpper(c) ==> u == c
  {
    if HasLatinUpper(c) then (c as int - 32) as char else c
  }

  function Lower(c: char): (l: char)
    ensures Cased(l) == Cased(c) && IsSpace(l) == IsSpace(c)
    ensures IsUpper(c) ==> IsLower(l)
  {
    if IsUpper(c) then (c as int + 32) as char else c
  }

  lemma CaseFacts(c: char)
    ensures Upper(Upper(c)) == Upper(c) && Lower(Lower(c)) == Lower(c)
    ensures Lower(Upper(c)) == Lower(c)
  {
  }

  // ---------------------------------------------------------------------
  // str.strip() and str.title()
  // ---------------------------------------------------------------------

  function StripStart(s: string): (r: string)
    ensures |r| <= |s| && r == s[|s| - |r|..]
    ensures r == [] || !IsSpace(r[0])
    ensures forall k :: 0 <= k < |s| - |r| ==> IsSpace(s[k])
  {
    if s != [] && IsSpace(s[0]) then StripStart(s[1..]) else s
  }

  function StripEnd(s: string): (r: string)
    ensures |r| <= |s| && r == s[..|r|]
    ensures r == [] || !IsSpace(r[|r| - 1])
    ensures forall k :: |r| <= k < |s| ==> IsSpace(s[k])
  {
    if s != [] && IsSpace(s[|s| - 1]) then StripEnd(s[..|s| - 1]) else s
  }

  /** The number of whitespace characters s starts with. */
  function Lead(s: string): (n: nat)
    ensures n <= |s|
  {
    |s| - |StripStart(s)|
  }

  /** `str.strip()`: whitespace removed from both ends. */
  function Strip(s: string): (r: string)
    ensures Stripped(r)
  {
    StripEnd(StripStart(s))
  }

  /** What strip keeps is the slice of s between its leading and trailing
      whitespace. */
  lemma StripSlice(s: string)
    ensures Lead(s) + |Strip(s)| <= |s| && Strip(s) == s[Lead(s)..Lead(s) + |Strip(s)|]
  {
    var left := StripStart(s);
    var r := StripEnd(left);
    var i := |s| - |left|;
    assert r == s[i..][..|r|];
  }

  /** All that strip cuts away is whitespace. */
  lemma StripCutsSpace(s: string, k: int)
    requires 0 <= k < |s| && (k < Lead(s) || Lead(s) + |Strip(s)| <= k)
    ensures IsSpace(s[k])
  {
    var left := StripStart(s);
    var i := |s| - |left|;
    if i <= k {
      assert s[k] == left[k - i];
    }
  }

  /** No whitespace at either end. */
  predicate Stripped(s: string)
  {
    s == [] || (!IsSpace(s[0]) && !IsSpace(s[|s| - 1]))
  }

  /** `str.title()` from a position whose previous character was (or was
      not) a letter: a letter after a letter goes to lower case, any other
      letter to upper case, and other characters stay. */
  function TitleFrom(s: string, afterLetter: bool): (t: string)
    ensures |t| == |s|
  {
    if s == [] then []
    else [if afterLetter then Lower(s[0]) else Upper(s[0])] + TitleFrom(s[1..], Cased(s[0]))
  }

  function Title(s: string): string
  {
    TitleFrom(s, false)
  }

  /** t is s in title case: the same characters up to case, each letter
      that starts a word in upper case and every other letter in lower
      case. */
  predicate TitleOf(s: string, t: string)
  {
    |t| == |s|
    && (forall k :: 0 <= k < |s| ==> Lower(t[k]) == Lower(s[k]) && Cased(t[k]) == Cased(s[k]) && IsSpace(t[k]) == IsSpace(s[k]))
    && (forall k :: 0 <= k < |s| && (k == 0 || !Cased(s[k - 1])) ==> Upper(t[k]) == t[k])
    && (forall k :: 0 < k < |s| && Cased(s[k - 1]) ==> Lower(t[k]) == t[k])
  }

  lemma {:induction false} TitleFromMeaning(s: string, afterLetter: bool)
    ensures var t := TitleFrom(s, afterLetter);
      |t| == |s|
      && (forall k :: 0 <= k < |s| ==> Lower(t[k]) == Lower(s[k]) && Cased(t[k]) == Cased(s[k]) && IsSpace(t[k]) == IsSpace(s[k]))
      && (s != [] && !afterLetter ==> Upper(t[0]) == t[0])
      && (s != [] && afterLetter ==> Lower(t[0]) == t[0])
      && (forall k :: 0 < k < |s| && !Cased(s[k - 1]) ==> Upper(t[k]) == t[k])
      && (forall k :: 0 < k < |s| && Cased(s[k - 1]) ==> Lower(t[k]) == t[k])
  {
    if s != [] {
      CaseFacts(s[0]);
      TitleFromMeaning(s[1..], Cased(s[0]));
      var t := TitleFrom(s, afterLetter);
      assert forall k :: 0 < k < |s| ==> t[k] == TitleFrom(s[1..], Cased(s[0]))[k - 1] && s[k] == s[1..][k - 1];
    }
  }

  /** Title() gives the title case of its argument. */
  lemma TitleMeaning(s: string)
    ensures TitleOf(s, Title(s))
  {
    TitleFromMeaning(s, false);
  }

  /** Title case of a title-cased text changes nothing. */
  lemma {:induction false} TitleFromTwice(s: string, afterLetter: bool)
    ensures TitleFrom(TitleFrom(s, afterLetter), afterLetter) == TitleFrom(s, afterLetter)
  {
    if s != [] {
      CaseFacts(s[0]);
      var t := TitleFrom(s, afterLetter);
      assert t[1..] == TitleFrom(s[1..], Cased(s[0]));
      assert Cased(t[0]) == Cased(s[0]);
      TitleFromTwice(s[1..], Cased(s[0]));
    }
  }

  /** Title case keeps whitespace at the same places, so a stripped text
      stays stripped. */
  lemma TitleStripped(s: string)
    requires Stripped(s)
    ensures Stripped(Title(s))
  {
    TitleFromMeaning(s, false);
  }

  lemma {:induction false} StripOfStripped(s: string)
    requires Stripped(s)
    ensures Strip(s) == s
  {
  }

  // ---------------------------------------------------------------------
  // clean_text_columns
  // ---------------------------------------------------------------------

  /** One cell of a cleaned text column: missing becomes '', a number is
      first written as text by `render` (`astype(str)`), then the text is
      stripped and title-cased. */
  function CleanCell(c: Cell, render: real -> string): (r: Cell)
    ensures r.Text? && Stripped(r.text)
  {
    var s := match c
      case Missing => ""
      case Text(t) => t
      case Number(x) => render(x);
    TitleStripped(Strip(s));
    Text(Title(Strip(s)))
  }

  /** A cleaned text value is stripped and title-cased: no missing values,
      nothing at either end, and the stripped source in title case. */
  lemma CleanCellMeaning(c: Cell, render: real -> string)
    ensures var r := CleanCell(c, render);
      r.Text? && Stripped(r.text) &&
      (c.Missing? ==> r.text == "") &&
      (c.Text? ==> TitleOf(Strip(c.text), r.text))
  {
    if c.Text? {
      TitleMeaning(Strip(c.text));
    }
  }

  /** Cleaning a cleaned value changes nothing. */
  lemma CleanCellTwice(c: Cell, render: real -> string)
    ensures CleanCell(CleanCell(c, render), render) == CleanCell(c, render)
  {
    var t := CleanCell(c, render).text;
    StripOfStripped(t);
    var s := match c
      case Missing => ""
      case Text(u) => u
      case Number(x) => render(x);
    TitleFromTwice(Strip(s), false);
  }

  function CleanCells(cs: seq<Cell>, render: real -> string): (r: seq<Cell>)
    ensures |r| == |cs|
    ensures forall k :: 0 <= k < |cs| ==> r[k] == CleanCell(cs[k], render)
  {
    seq(|cs|, k requires 0 <= k < |cs| => CleanCell(cs[k], render))
  }

  /** A cleaned text column: text dtype, one cleaned cell per cell. */
  function CleanTextColumn(col: Column, render: real -> string): (r: Column)
    ensures !r.numeric && |r.cells| == |col.cells|
    ensures forall k :: 0 <= k < |r.cells| ==> r.cells[k].Text? && Stripped(r.cells[k].text)
  {
    Column(false, CleanCells(col.cells, render))
  }

  /** Cleaning a column twice is cleaning it once. */
  lemma CleanTextColumnTwice(col: Column, render: real -> string)
    ensures CleanTextColumn(CleanTextColumn(col, render), render) == CleanTextColumn(col, render)
  {
    var once := CleanTextColumn(col, render);
    forall k | 0 <= k < |col.cells|
      ensures CleanCell(once.cells[k], render) == once.cells[k]
    {
      CleanCellTwice(col.cells[k], render);
    }
    assert CleanCells(once.cells, render) == once.cells;
  }

  /** After the columns in `done` were handled: the listed columns are
      cleaned, every other column is as in the original. */
  predicate CleanedAfter(original: map<string, Column>, current: map<string, Column>, done: seq<string>,
                         render: real -> string)
  {
    current.Keys == original.Keys
    && forall name :: name in original ==>
      current[name] == if name in done then CleanTextColumn(original[name], render) else original[name]
  }

  /** One more pass of the loop keeps CleanedAfter. */
  lemma CleanStep(original: map<string, Column>, current: map<string, Column>, done: seq<string>, name: string,
                  render: real -> string)
    requires CleanedAfter(original, current, done, render)
    ensures name in current ==>
      CleanedAfter(original, current[name := CleanTextColumn(current[name], render)], done + [name], render)
    ensures name !in current ==> CleanedAfter(original, current, done + [name], render)
  {
    if name in current && name in done {
      CleanTextColumnTwice(original[name], render);
    }
  }

  /** `clean_text_columns`: on a copy of df, every listed column that the
      frame has is replaced by its cleaned version; df itself and every
      other column stay as they were. */
  method CleanTextColumns(df: Frame, textColumns: seq<string>, render: real -> string) returns (cleaned: Frame)
    ensures fresh(cleaned) && df.columns == old(df.columns)
    ensures CleanedAfter(df.columns, cleaned.columns, textColumns, render)
  {
    cleaned := df.Copy();
    var original := df.columns;
    var i := 0;
    while i < |textColumns|
      invariant 0 <= i <= |textColumns|
      invariant CleanedAfter(original, cleaned.columns, textColumns[..i], render)
    {
      var name := textColumns[i];
      CleanStep(original, cleaned.columns, textColumns[..i], name, render);
      if name in cleaned.columns {
        cleaned.columns := cleaned.columns[name := CleanTextColumn(cleaned.columns[name], render)];
      }
      TakeNext(textColumns, i);
      i := i + 1;
    }
    assert textColumns[..i] == textColumns;
  }

  // ---------------------------------------------------------------------
  // handle_numeric_nan
  // ---------------------------------------------------------------------

  /** The values of a column that are present; pandas' median and mean
      skip the missing ones. */
  function Present(cs: seq<Cell>): (r: seq<real>)
    ensures |r| <= |cs|
    ensures forall x :: x in r <==> Number(x) in cs
  {
    if cs == [] then []
    else
      assert forall c :: c in cs <==> c == cs[0] || c in cs[1..];
      (if cs[0].Number? then [cs[0].x] else []) + Present(cs[1..])
  }

  /** The median: the middle value in order, or the mean of the two middle
      values for an even count. */
  function Median(xs: seq<real>): (m: real)
    requires |xs| > 0
  {
    var s := SortDesc(xs, (x: real) => x);
    var n := |s|;
    if n % 2 == 1 then s[n / 2] else (s[n / 2 - 1] + s[n / 2]) / 2.0
  }

  /** The median lies between any bounds of the values, and for an odd
      count it is one of them. */
  lemma MedianBounds(xs: seq<real>, lo: real, hi: real)
    requires |xs| > 0
    requires forall x :: x in xs ==> lo <= x <= hi
    ensures lo <= Median(xs) <= hi
    ensures |xs| % 2 == 1 ==> Median(xs) in xs
  {
    var s := SortDesc(xs, (x: real) => x);
    SortDescMembers(xs, (x: real) => x);
    var n := |s|;
    assert s[n / 2] in s;
    if n % 2 == 0 {
      assert s[n / 2 - 1] in s;
      MidpointBounds(s[n / 2 - 1], s[n / 2], lo, hi);
    }
  }

  lemma MidpointBounds(a: real, b: real, lo: real, hi: real)
    requires lo <= a <= hi && lo <= b <= hi
    ensures lo <= (a + b) / 2.0 <= hi
  {
  }

  /** The fill value: `median()` for 'median' and for any method it does
      not know, `mean()` for 'mean'; NaN (None) for a column without
      values. */
  function FillValue(col: Column, how: string): (v: Option<real>)
    ensures v.Some? <==> |Present(col.cells)| > 0
  {
    var xs := Present(col.cells);
    if xs == [] then None
    else if how == "mean" then Some(Mean(xs))
    else Some(Median(xs))
  }

  /** The fill value lies between the smallest and the largest value. */
  lemma FillValueBounds(col: Column, how: string, lo: real, hi: real)
    requires forall c :: c in col.cells && c.Number? ==> lo <= c.x <= hi
    ensures FillValue(col, how).Some? ==> lo <= FillValue(col, how).value <= hi
  {
    var xs := Present(col.cells);
    assert forall i :: 0 <= i < |xs| ==> Number(xs[i]) in col.cells;
    if xs != [] {
      if how == "mean" {
        MeanBounds(xs, lo, hi);
      } else {
        MedianBounds(xs, lo, hi);
      }
    }
  }

  function FillCells(cs: seq<Cell>, v: Option<real>): (r: seq<Cell>)
    ensures |r| == |cs|
    ensures forall k :: 0 <= k < |cs| ==> r[k] == if cs[k].Missing? && v.Some? then Number(v.value) else cs[k]
  {
    seq(|cs|, k requires 0 <= k < |cs| => if cs[k].Missing? && v.Some? then Number(v.value) else cs[k])
  }

  /** `col.fillna(value)`. */
  function FillColumn(col: Column, how: string): (r: Column)
    ensures r.numeric == col.numeric && |r.cells| == |col.cells|
  {
    Column(col.numeric, FillCells(col.cells, FillValue(col, how)))
  }

  /** Present values stay, missing ones take the fill value; a column with
      any value has no missing cell left. */
  lemma FillColumnMeaning(col: Column, how: string, k: int)
    requires 0 <= k < |col.cells|
    ensures var r := FillColumn(col, how);
      (!col.cells[k].Missing? ==> r.cells[k] == col.cells[k]) &&
      (col.cells[k].Missing? && |Present(col.cells)| > 0 ==> r.cells[k] == Number(FillValue(col, how).value)) &&
      (|Present(col.cells)| == 0 ==> r == col)
  {
    if |Present(col.cells)| == 0 {
      assert FillCells(col.cells, None) == col.cells;
    }
  }

  /** Filling a filled column changes nothing. */
  lemma FillColumnTwice(col: Column, how: string)
    ensures FillColumn(FillColumn(col, how), how) == FillColumn(col, how)
  {
    var once := FillColumn(col, how);
    if |Present(col.cells)| == 0 {
      assert FillCells(col.cells, None) == col.cells;
    } else {
      assert forall k :: 0 <= k < |once.cells| ==> !once.cells[k].Missing?;
      assert FillCells(once.cells, FillValue(once, how)) == once.cells;
    }
  }

  /** After the columns in `done` were handled: the listed numeric columns
      are filled, every other column is as in the original. */
  predicate FilledAfter(original: map<string, Column>, current: map<string, Column>, done: seq<string>, how: string)
  {
    current.Keys == original.Keys
    && forall name :: name in original ==>
      current[name] == if name in done && original[name].numeric then FillColumn(original[name], how) else original[name]
  }

  /** One more pass of the loop keeps FilledAfter. */
  lemma FillStep(original: map<string, Column>, current: map<string, Column>, done: seq<string>, name: string, how: string)
    requires FilledAfter(original, current, done, how)
    ensures name in current ==> current[name].numeric == original[name].numeric
    ensures name in current && current[name].numeric ==>
      FilledAfter(original, current[name := FillColumn(current[name], how)], done + [name], how)
    ensures !(name in current && current[name].numeric) ==> FilledAfter(original, current, done + [name], how)
  {
    if name in current && name in done && original[name].numeric {
      FillColumnTwice(original[name], how);
    }
  }

  lemma TakeNext(names: seq<string>, i: int)
    requires 0 <= i < |names|
    ensures names[..i + 1] == names[..i] + [names[i]]
  {
  }

  /** `handle_numeric_nan`: on a copy of df, every listed column that the
      frame has and whose dtype is numeric gets its missing values filled;
      df itself and every other column stay as they were. */
  method HandleNumericNan(df: Frame, numericColumns: seq<string>, how: string) returns (cleaned: Frame)
    ensures fresh(cleaned) && df.columns == old(df.columns)
    ensures FilledAfter(df.columns, cleaned.columns, numericColumns, how)
  {
    cleaned := df.Copy();
    var original := df.columns;
    var i := 0;
    while i < |numericColumns|
      invariant 0 <= i <= |numericColumns|
      invariant FilledAfter(original, cleaned.columns, numericColumns[..i], how)
    {
      var name := numericColumns[i];
      var cols := cleaned.columns;
      FillStep(original, cols, numericColumns[..i], name, how);
      if name in cols && cols[name].numeric {
        cols := cols[name := FillColumn(cols[name], how)];
      }
      cleaned.columns := cols;
      TakeNext(numericColumns, i);
      i := i + 1;
    }
    assert numericColumns[..i] == numericColumns;
  }
}
