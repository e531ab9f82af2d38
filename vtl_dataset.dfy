/**
 * The `vtl-dataset` directive of the documentation site: parses the text of
 * a dataset written as a header of `name[I|M|A,String|Number]` cells and
 * comma-separated rows, and appends `{name, structure, data}` to the list
 * bound as `addTo`.
 */
module DatasetDirective {
  import opened Wrappers

  // ---------------------------------------------------------------------------
  // Character classes

  predicate IsNewline(c: char) {
    c == '\r' || c == '\n'
  }

  /** The characters `String.prototype.trim` removes: white space and line terminators. */
  predicate IsTrimmed(c: char) {
    || c == ' ' || c == '\t' || c == '\n' || c == '\r' || c == '\U{000B}' || c == '\U{000C}'
    || c == '\U{00A0}' || c == '\U{FEFF}' || c == '\U{1680}' || ('\U{2000}' <= c <= '\U{200A}')
    || c == '\U{2028}' || c == '\U{2029}' || c == '\U{202F}' || c == '\U{205F}' || c == '\U{3000}'
  }

  /** The alternatives of the group `(I|M|A)`. */
  predicate IsRoleLetter(c: char) {
    c == 'I' || c == 'M' || c == 'A'
  }

  /** The regular-expression class `\w`. */
  predicate IsWordChar(c: char) {
    ('a' <= c <= 'z') || ('A' <= c <= 'Z') || ('0' <= c <= '9') || c == '_'
  }

  // ---------------------------------------------------------------------------
  // Preprocessing: `text.replace(/^[\r\n]+|\.|[\r\n]+$/g, ' ').trim()`

  /** Length of the longest prefix of `s` whose characters satisfy `p`. */
  function LeadingCount(s: string, p: char -> bool): (n: nat)
    ensures n <= |s|
    ensures forall i :: 0 <= i < n ==> p(s[i])
    ensures n < |s| ==> !p(s[n])
  {
    if s == [] || !p(s[0]) then 0 else 1 + LeadingCount(s[1..], p)
  }

  /** Length of the longest suffix of `s` whose characters satisfy `p`. */
  function TrailingCount(s: string, p: char -> bool): (n: nat)
    ensures n <= |s|
    ensures forall i :: |s| - n <= i < |s| ==> p(s[i])
    ensures n < |s| ==> !p(s[|s| - n - 1])
  {
    if s == [] || !p(s[|s| - 1]) then 0 else 1 + TrailingCount(s[..|s| - 1], p)
  }

  /** Every '.' becomes a space. */
  function DotsToSpaces(s: string): (r: string)
    ensures |r| == |s|
    ensures forall i :: 0 <= i < |s| ==> r[i] == if s[i] == '.' then ' ' else s[i]
  {
    seq(|s|, i requires 0 <= i < |s| => if s[i] == '.' then ' ' else s[i])
  }

  /** The global replace: the run of line breaks at the start, each '.', and the
      run of line breaks at the end each become one space. A text made only of
      line breaks is one run, matched at the start. */
  function ReplaceRunsAndDots(s: string): (r: string)
    ensures '.' !in r
    ensures |r| <= |s|
    ensures r == [] <==> s == []
  {
    var lead := LeadingCount(s, IsNewline);
    if lead == |s| then (if s == [] then [] else " ")
    else
      var trail := TrailingCount(s, IsNewline);
      assert !IsNewline(s[lead]);
      ReplaceMiddle(s, lead, trail)
  }

  /** The replace of a text that is not all line breaks: one space for the
      run of `lead` line breaks at the start, the middle with each '.' turned
      into a space, and one space for the run of `trail` at the end. */
  function ReplaceMiddle(s: string, lead: nat, trail: nat): (r: string)
    requires lead < |s| && lead + trail <= |s|
    ensures '.' !in r && |r| <= |s| && r != []
  {
    var mid := s[lead..|s| - trail];
    DotsRemoved(mid);
    SpaceIf(lead > 0) + DotsToSpaces(mid) + SpaceIf(trail > 0)
  }

  /** `String.prototype.trim`. */
  function Trim(s: string): (t: string)
    ensures |t| <= |s|
    ensures t == [] || (!IsTrimmed(t[0]) && !IsTrimmed(t[|t| - 1]))
  {
    var lead := LeadingCount(s, IsTrimmed);
    if lead == |s| then []
    else
      var trail := TrailingCount(s, IsTrimmed);
      assert !IsTrimmed(s[lead]);
      s[lead..|s| - trail]
  }

  /** The text after the replace and the trim: no '.' is left, and it neither
      starts nor ends with white space. */
  function Preprocess(text: string): (r: string)
    ensures '.' !in r
    ensures r == [] || (!IsTrimmed(r[0]) && !IsTrimmed(r[|r| - 1]))
    ensures |r| <= |text|
  {
    var replaced := ReplaceRunsAndDots(text);
    TrimKeepsOut(replaced, '.');
    Trim(replaced)
  }

  // ---------------------------------------------------------------------------
  // `lines < 1`: the array is compared as `Number(lines.join(','))`, and a
  // comparison with NaN is false. The preprocessed text holds no '.', so only
  // numerals without a fraction part can occur.

  predicate IsDigit(c: char) {
    '0' <= c <= '9'
  }

  predicate IsHexDigit(c: char) {
    IsDigit(c) || ('a' <= c <= 'f') || ('A' <= c <= 'F')
  }

  predicate IsOctalDigit(c: char) {
    '0' <= c <= '7'
  }

  predicate IsBinaryDigit(c: char) {
    c == '0' || c == '1'
  }

  /** A non-empty run of characters of one digit class. */
  predicate IsDigits(s: string, digit: char -> bool) {
    |s| > 0 && forall i :: 0 <= i < |s| ==> digit(s[i])
  }

  /** The value of a run of decimal digits. */
  function DecimalValue(s: string): nat
    requires forall i :: 0 <= i < |s| ==> IsDigit(s[i])
  {
    if s == [] then 0
    else
      assert IsDigit(s[|s| - 1]);
      10 * DecimalValue(s[..|s| - 1]) + (s[|s| - 1] as int - '0' as int)
  }

  function Pow10(n: nat): (p: nat)
    ensures p >= 1
  {
    if n == 0 then 1 else 10 * Pow10(n - 1)
  }

  /** Position of the first exponent indicator 'e' or 'E', or -1. */
  function ExponentMark(s: string): (r: int)
    ensures -1 <= r < |s|
    ensures r >= 0 ==> s[r] == 'e' || s[r] == 'E'
    ensures forall i :: 0 <= i < |s| && (r == -1 || i < r) ==> s[i] != 'e' && s[i] != 'E'
  {
    if s == [] then -1
    else if s[0] == 'e' || s[0] == 'E' then 0
    else
      var r := ExponentMark(s[1..]);
      if r == -1 then -1 else r + 1
  }

  /** An unsigned decimal literal without a point (`Infinity`, or digits with
      an optional signed exponent) compared with 1: None when `s` is no such
      literal, that is when it reads as NaN. */
  function UnsignedBelowOne(s: string): Option<bool> {
    if s == "Infinity" then Some(false)
    else
      var e := ExponentMark(s);
      if e == -1 then
        if IsDigits(s, IsDigit) then Some(DecimalValue(s) == 0) else None
      else
        var mantissa, exponent := s[..e], s[e + 1..];
        if !IsDigits(mantissa, IsDigit) then None
        else if IsDigits(exponent, IsDigit) || (|exponent| > 0 && exponent[0] == '+' && IsDigits(exponent[1..], IsDigit)) then
          Some(DecimalValue(mantissa) == 0)
        else if |exponent| > 0 && exponent[0] == '-' && IsDigits(exponent[1..], IsDigit) then
          Some(DecimalValue(mantissa) < Pow10(DecimalValue(exponent[1..])))
        else None
  }

  /** A run of decimal digits has value 0 exactly when every digit is '0'. */
  lemma {:induction false} DecimalZero(s: string)
    requires forall i :: 0 <= i < |s| ==> IsDigit(s[i])
    ensures DecimalValue(s) == 0 <==> forall i :: 0 <= i < |s| ==> s[i] == '0'
  {
    if s != [] {
      var init := s[..|s| - 1];
      DecimalZero(init);
      assert forall i :: 0 <= i < |init| ==> init[i] == s[i];
    }
  }

  /** A plain run of decimal digits is below 1 exactly when all its digits are '0'. */
  lemma DigitsBelowOne(s: string)
    requires IsDigits(s, IsDigit)
    ensures UnsignedBelowOne(s) == Some(forall i :: 0 <= i < |s| ==> s[i] == '0')
  {
    assert IsDigit(s[0]) && !IsDigit("Infinity"[0]);
    DecimalZero(s);
  }

  /** `Number(t) < 1` for a trimmed `t`: the empty string reads as 0, a minus
      sign makes every numeral at most 0, and the prefixed hexadecimal, octal
      and binary forms are below 1 only when all zero. */
  function TrimmedBelowOne(t: string): (r: bool)
    ensures t == [] ==> r
  {
    if t == [] then true
    else if t[0] == '-' then UnsignedBelowOne(t[1..]).Some?
    else if t[0] == '+' then UnsignedBelowOne(t[1..]) == Some(true)
    else if |t| >= 2 && t[0] == '0' && (t[1] == 'x' || t[1] == 'X') then
      IsDigits(t[2..], IsHexDigit) && forall i :: 2 <= i < |t| ==> t[i] == '0'
    else if |t| >= 2 && t[0] == '0' && (t[1] == 'o' || t[1] == 'O') then
      IsDigits(t[2..], IsOctalDigit) && forall i :: 2 <= i < |t| ==> t[i] == '0'
    else if |t| >= 2 && t[0] == '0' && (t[1] == 'b' || t[1] == 'B') then
      IsDigits(t[2..], IsBinaryDigit) && forall i :: 2 <= i < |t| ==> t[i] == '0'
    else UnsignedBelowOne(t) == Some(true)
  }

  /** `Number(s) < 1`: white space around the numeral is ignored. */
  function NumberBelowOne(s: string): (r: bool)
    ensures Trim(s) == [] ==> r
    ensures r ==> forall c :: c in Trim(s) ==> IsNumeralChar(c)
  {
    TrimmedNumeral(Trim(s));
    TrimmedBelowOne(Trim(s))
  }

  // ---------------------------------------------------------------------------
  // String.prototype.split

  predicate OccursAt(s: string, sep: string, k: int) {
    0 <= k && k + |sep| <= |s| && s[k..k + |sep|] == sep
  }

  /** The first occurrence of `sep` at or after `from`, or -1. */
  function FindFrom(s: string, sep: string, from: nat): (r: int)
    requires |sep| > 0 && from <= |s|
    ensures r == -1 || (from <= r && OccursAt(s, sep, r))
    ensures forall k :: from <= k && (r == -1 || k < r) ==> !OccursAt(s, sep, k)
    decreases |s| - from
  {
    if from + |sep| > |s| then -1
    else if s[from..from + |sep|] == sep then from
    else FindFrom(s, sep, from + 1)
  }

  /** `s.split(sep)` for a non-empty separator string. */
  function Split(s: string, sep: string): (parts: seq<string>)
    requires |sep| > 0
    ensures |parts| >= 1
    decreases |s|
  {
    var i := FindFrom(s, sep, 0);
    if i == -1 then [s] else [s[..i]] + Split(s[i + |sep|..], sep)
  }

  /** `parts.join(sep)`. */
  function Join(parts: seq<string>, sep: string): string
    requires |parts| >= 1
  {
    if |parts| == 1 then parts[0] else parts[0] + sep + Join(parts[1..], sep)
  }

  /** A line break at position k: "\r\n" (tried first) or "\n"; 0 when none. */
  function BreakAt(s: string, k: nat): (n: nat)
    requires k < |s|
    ensures n <= 2 && k + n <= |s|
  {
    if s[k] == '\r' && k + 1 < |s| && s[k + 1] == '\n' then 2
    else if s[k] == '\n' then 1
    else 0
  }

  /** The first line break at or after `from`, or -1. */
  function FindBreakFrom(s: string, from: nat): (r: int)
    requires from <= |s|
    ensures r == -1 || (from <= r < |s| && BreakAt(s, r) > 0)
    ensures forall k :: from <= k < |s| && (r == -1 || k < r) ==> BreakAt(s, k) == 0
    decreases |s| - from
  {
    if from == |s| then -1
    else if BreakAt(s, from) > 0 then from
    else FindBreakFrom(s, from + 1)
  }

  /** `s.split(/\r\n|\n/)`. */
  function SplitLines(s: string): (lines: seq<string>)
    ensures |lines| >= 1
    decreases |s|
  {
    var i := FindBreakFrom(s, 0);
    if i == -1 then [s] else [s[..i]] + SplitLines(s[i + BreakAt(s, i)..])
  }

  // ---------------------------------------------------------------------------
  // The column pattern `/(\w+)\[(I|M|A),(String|Number)]?/`

  /** A match: the name group, the role letter and the type name. */
  datatype ColumnMatch = ColumnMatch(name: string, role: char, typ: string)

  predicate StartsWith(s: string, prefix: string) {
    |prefix| <= |s| && s[..|prefix|] == prefix
  }

  /** Start of the run of word characters that ends just before position k. */
  function WordStart(s: string, k: nat): (p: nat)
    requires k <= |s|
    ensures p <= k
    ensures forall i :: p <= i < k ==> IsWordChar(s[i])
    ensures p == 0 || !IsWordChar(s[p - 1])
  {
    if k == 0 || !IsWordChar(s[k - 1]) then k else WordStart(s, k - 1)
  }

  /** The match whose '[' stands at position k, if there is one. A run of `\w`
      can only be followed by '[' at its end, so the name is the whole run. */
  function MatchAt(cell: string, k: nat): (m: Option<ColumnMatch>)
    requires k < |cell|
    ensures m.Some? ==> IsRoleLetter(m.value.role) && (m.value.typ == "String" || m.value.typ == "Number")
  {
    var p := WordStart(cell, k);
    if cell[k] == '[' && p < k && k + 3 <= |cell| && IsRoleLetter(cell[k + 1]) && cell[k + 2] == ',' then
      if StartsWith(cell[k + 3..], "String") then Some(ColumnMatch(cell[p..k], cell[k + 1], "String"))
      else if StartsWith(cell[k + 3..], "Number") then Some(ColumnMatch(cell[p..k], cell[k + 1], "Number"))
      else None
    else None
  }

  /** The leftmost match whose '[' stands at or after position k. */
  function ExecFrom(cell: string, k: nat): (m: Option<ColumnMatch>)
    requires k <= |cell|
    ensures m.Some? ==> IsRoleLetter(m.value.role) && (m.value.typ == "String" || m.value.typ == "Number")
    decreases |cell| - k
  {
    if k == |cell| then None
    else if MatchAt(cell, k).Some? then MatchAt(cell, k)
    else ExecFrom(cell, k + 1)
  }

  /** `columnRegex.exec(cell)`, with None for null. */
  function ExecColumn(cell: string): (m: Option<ColumnMatch>)
    ensures m.Some? ==> IsRoleLetter(m.value.role) && (m.value.typ == "String" || m.value.typ == "Number")
  {
    ExecFrom(cell, 0)
  }

  // ---------------------------------------------------------------------------
  // The parsed dataset

  datatype Column = Column(name: string, role: string, typ: string)
  datatype DatasetObject = DatasetObject(name: Option<string>, structure: seq<Column>, data: seq<seq<string>>)

  /** What ends parsing: the two `Error`s thrown by the directive, and the
      TypeError raised when `exec` finds no match in a header cell. */
  datatype ParseError = NoHeader | HeaderCellUnmatched | RowSizeInconsistent

  function RoleName(letter: char): (role: string)
    requires IsRoleLetter(letter)
    ensures letter == 'I' <==> role == "IDENTIFIER"
    ensures letter == 'M' <==> role == "MEASURE"
    ensures letter == 'A' <==> role == "ATTRIBUTE"
  {
    if letter == 'I' then "IDENTIFIER" else if letter == 'M' then "MEASURE" else "ATTRIBUTE"
  }

  /** The column pushed for a match: the name group, the role spelled out
      and the type group behind "java.lang.". */
  function ToColumn(m: ColumnMatch): (c: Column)
    requires IsRoleLetter(m.role)
    ensures c.name == m.name
    ensures |c.typ| == 10 + |m.typ| && c.typ[..10] == "java.lang." && c.typ[10..] == m.typ
  {
    Column(m.name, RoleName(m.role), "java.lang." + m.typ)
  }

  /** Every header cell matches the column pattern. */
  predicate HeaderMatches(cells: seq<string>) {
    forall i :: 0 <= i < |cells| ==> ExecColumn(cells[i]).Some?
  }

  /** One column per header cell, in order. */
  function HeaderColumns(cells: seq<string>): (columns: seq<Column>)
    requires HeaderMatches(cells)
    ensures |columns| == |cells|
  {
    seq(|cells|, i requires 0 <= i < |cells| && HeaderMatches(cells) => ToColumn(ExecColumn(cells[i]).value))
  }

  /** Every row line splits on ',' into `width` cells. */
  predicate RowsFit(rows: seq<string>, width: nat) {
    forall i :: 0 <= i < |rows| ==> |Split(rows[i], ",")| == width
  }

  /** The raw cells of each row line, in order. */
  function RowCells(rows: seq<string>): (data: seq<seq<string>>)
    ensures |data| == |rows|
  {
    seq(|rows|, i requires 0 <= i < |rows| => Split(rows[i], ","))
  }

  /** The whole parse, stated over the header and row lines at once: fail when
      the lines read as a number below 1 (an empty text among them), when a header cell has no match, or when a row's
      width differs from the header's; otherwise one column per header cell
      and the raw cells of each row. */
  function Parsed(name: Option<string>, text: string): (r: Result<DatasetObject, ParseError>)
    ensures r.Success? ==> r.value.name == name && |r.value.structure| >= 1
    ensures r.Success? ==> |r.value.structure| == |Split(SplitLines(Preprocess(text))[0], "],")|
    ensures r.Success? ==> |r.value.data| == |SplitLines(Preprocess(text))| - 1
  {
    var lines := SplitLines(Preprocess(text));
    if NumberBelowOne(Join(lines, ",")) then Failure(NoHeader)
    else
      var cells := Split(lines[0], "],");
      if !HeaderMatches(cells) then Failure(HeaderCellUnmatched)
      else if !RowsFit(lines[1..], |cells|) then Failure(RowSizeInconsistent)
      else Success(DatasetObject(name, HeaderColumns(cells), RowCells(lines[1..])))
  }

  /** The header loop: one column pushed per '],'-separated cell; a cell
      without a match stops the loop. */
  method ParseHeader(line: string) returns (structure: Option<seq<Column>>)
    ensures structure.Some? <==> HeaderMatches(Split(line, "],"))
    ensures structure.Some? ==> structure.value == HeaderColumns(Split(line, "],"))
  {
    var cells := Split(line, "],");
    var columns: seq<Column> := [];
    for i := 0 to |cells|
      invariant |columns| == i
      invariant forall k :: 0 <= k < i ==> ExecColumn(cells[k]).Some? && columns[k] == ToColumn(ExecColumn(cells[k]).value)
    {
      var cell := ExecColumn(cells[i]);
      if cell.None? {
        return None;
      }
      var m := cell.value;
      columns := columns + [Column(m.name, RoleName(m.role), "java.lang." + m.typ)];
    }
    structure := Some(columns);
  }

  /** The row loop: each line split on ',' must have `width` cells, and its
      cells are pushed as they are. */
  method ParseRows(lines: seq<string>, width: nat) returns (data: Option<seq<seq<string>>>)
    ensures data.Some? <==> RowsFit(lines, width)
    ensures data.Some? ==> data.value == RowCells(lines)
  {
    var rows: seq<seq<string>> := [];
    for i := 0 to |lines|
      invariant |rows| == i
      invariant forall k :: 0 <= k < i ==> rows[k] == Split(lines[k], ",") && |rows[k]| == width
    {
      var cells := Split(lines[i], ",");
      if |cells| != width {
        return None;
      }
      rows := rows + [cells];
    }
    data := Some(rows);
  }

  /** The parsing body of the link function: preprocess, split into lines,
      take the first line off as the header, then parse header and rows. */
  method ParseDataset(name: Option<string>, text: string) returns (r: Result<DatasetObject, ParseError>)
    ensures r == Parsed(name, text)
  {
    var lines := SplitLines(Preprocess(text));
    if NumberBelowOne(Join(lines, ",")) {
      return Failure(NoHeader);
    }
    var line := lines[0];
    lines := lines[1..];
    var structure := ParseHeader(line);
    if structure.None? {
      return Failure(HeaderCellUnmatched);
    }
    var data := ParseRows(lines, |structure.value|);
    if data.None? {
      return Failure(RowSizeInconsistent);
    }
    r := Success(DatasetObject(name, structure.value, data.value));
  }

  /** The directive's scope: the optional `name` attribute and the bound `addTo` list. */
  class Scope {
    const name: Option<string>
    var addTo: Option<seq<DatasetObject>>

    constructor (name: Option<string>, addTo: Option<seq<DatasetObject>>)
      ensures this.name == name && this.addTo == addTo
    {
      this.name := name;
      this.addTo := addTo;
    }
  }

  /** The link function: default `addTo` to an empty list, then, for non-empty
      content, parse it and append the dataset. A thrown error leaves `addTo`
      defaulted but without a new dataset. */
  method LinkFunction(scope: Scope, text: string) returns (thrown: Option<ParseError>)
    modifies scope
    ensures scope.addTo.Some?
    ensures |text| == 0 ==> scope.addTo.value == old(scope.addTo).GetOr([]) && thrown.None?
    ensures |text| > 0 && Parsed(scope.name, text).Success? ==>
              scope.addTo.value == old(scope.addTo).GetOr([]) + [Parsed(scope.name, text).value] && thrown.None?
    ensures |text| > 0 && Parsed(scope.name, text).Failure? ==>
              scope.addTo.value == old(scope.addTo).GetOr([]) && thrown == Some(Parsed(scope.name, text).error)
  {
    if scope.addTo.None? {
      scope.addTo := Some([]);
    }
    thrown := None;
    if |text| != 0 {
      var r := ParseDataset(scope.name, text);
      match r
      case Failure(e) =>
        thrown := Some(e);
      case Success(dataset) =>
        scope.addTo := Some(scope.addTo.value + [dataset]);
    }
  }

  // ---------------------------------------------------------------------------
  // Properties

  lemma JoinCons(first: string, rest: seq<string>, sep: string)
    requires |rest| >= 1
    ensures Join([first] + rest, sep) == first + sep + Join(rest, sep)
  {
    assert ([first] + rest)[1..] == rest;
  }

  /** Joining the parts of a split with the separator gives the text back. */
  lemma {:induction false} SplitJoin(s: string, sep: string)
    requires |sep| > 0
    ensures Join(Split(s, sep), sep) == s
    decreases |s|
  {
    var i := FindFrom(s, sep, 0);
    if i == -1 {
      assert Split(s, sep) == [s];
    } else {
      var rest := s[i + |sep|..];
      assert Split(s, sep) == [s[..i]] + Split(rest, sep);
      SplitJoin(rest, sep);
      JoinCons(s[..i], Split(rest, sep), sep);
      assert s[i..i + |sep|] == sep;
      assert s == s[..i] + s[i..i + |sep|] + rest;
    }
  }

  /** No part of a split contains the separator. */
  lemma {:induction false} SplitPartsFree(s: string, sep: string)
    requires |sep| > 0
    ensures forall j, k :: 0 <= j < |Split(s, sep)| ==> !OccursAt(Split(s, sep)[j], sep, k)
    decreases |s|
  {
    var i := FindFrom(s, sep, 0);
    if i != -1 {
      var rest := s[i + |sep|..];
      SplitPartsFree(rest, sep);
      var parts := Split(s, sep);
      assert parts == [s[..i]] + Split(rest, sep);
      forall j, k | 0 <= j < |parts| ensures !OccursAt(parts[j], sep, k) {
        if j == 0 {
          if OccursAt(s[..i], sep, k) {
            assert s[..i][k..k + |sep|] == s[k..k + |sep|];
            assert OccursAt(s, sep, k);
          }
        } else {
          assert parts[j] == Split(rest, sep)[j - 1];
        }
      }
    }
  }

  /** Joining the lines of a text without '\r' with "\n" gives the text back. */
  lemma {:induction false} SplitLinesJoin(s: string)
    requires '\r' !in s
    ensures Join(SplitLines(s), "\n") == s
    decreases |s|
  {
    var i := FindBreakFrom(s, 0);
    if i == -1 {
      assert SplitLines(s) == [s];
    } else {
      assert s[i] != '\r';
      assert BreakAt(s, i) == 1 && s[i] == '\n';
      var rest := s[i + 1..];
      assert '\r' !in rest by {
        forall c | c in rest ensures c != '\r' {
          var k :| 0 <= k < |rest| && rest[k] == c;
          assert rest[k] == s[i + 1 + k];
        }
      }
      assert SplitLines(s) == [s[..i]] + SplitLines(rest);
      SplitLinesJoin(rest);
      JoinCons(s[..i], SplitLines(rest), "\n");
      assert s == s[..i] + "\n" + rest;
    }
  }

  /** No line of `split(/\r\n|\n/)` contains a '\n'. */
  lemma {:induction false} LinesHaveNoNewline(s: string)
    ensures forall j, k :: 0 <= j < |SplitLines(s)| && 0 <= k < |SplitLines(s)[j]| ==> SplitLines(s)[j][k] != '\n'
    decreases |s|
  {
    var i := FindBreakFrom(s, 0);
    if i != -1 {
      var rest := s[i + BreakAt(s, i)..];
      LinesHaveNoNewline(rest);
      var lines := SplitLines(s);
      assert lines == [s[..i]] + SplitLines(rest);
      forall j, k | 0 <= j < |lines| && 0 <= k < |lines[j]| ensures lines[j][k] != '\n' {
        if j == 0 {
          assert lines[0][k] == s[k] && BreakAt(s, k) == 0;
        } else {
          assert lines[j] == SplitLines(rest)[j - 1];
        }
      }
    } else {
      forall k | 0 <= k < |s| ensures s[k] != '\n' {
        assert BreakAt(s, k) == 0;
      }
    }
  }

  /** The text `name[R,Type` of a match stands at position p of the cell, the
      name is a whole run of word characters, R is I, M or A and Type is
      String or Number. */
  predicate PatternAt(cell: string, p: nat, m: ColumnMatch) {
    var b := p + |m.name|;
    && |m.name| > 0
    && (forall i :: 0 <= i < |m.name| ==> IsWordChar(m.name[i]))
    && IsRoleLetter(m.role)
    && (m.typ == "String" || m.typ == "Number")
    && (p == 0 || (p <= |cell| && !IsWordChar(cell[p - 1])))
    && b + 3 + |m.typ| <= |cell|
    && cell[p..b] == m.name
    && cell[b] == '[' && cell[b + 1] == m.role && cell[b + 2] == ','
    && cell[b + 3..b + 3 + |m.typ|] == m.typ
  }

  /** What a match at k consists of, read off the definition. */
  lemma MatchAtParts(cell: string, k: nat)
    requires k < |cell| && MatchAt(cell, k).Some?
    ensures var m, p := MatchAt(cell, k).value, WordStart(cell, k);
            && p < k && k + 3 + |m.typ| <= |cell|
            && m.name == cell[p..k]
            && cell[k] == '[' && cell[k + 1] == m.role && cell[k + 2] == ','
            && cell[k + 3..k + 3 + |m.typ|] == m.typ
  {
    var m := MatchAt(cell, k).value;
    var n := |m.typ|;
    assert cell[k + 3..][..n] == cell[k + 3..k + 3 + n];
  }

  lemma MatchAtSound(cell: string, k: nat)
    requires k < |cell| && MatchAt(cell, k).Some?
    ensures PatternAt(cell, WordStart(cell, k), MatchAt(cell, k).value)
  {
    var m := MatchAt(cell, k).value;
    var p := WordStart(cell, k);
    MatchAtParts(cell, k);
    forall i | 0 <= i < |m.name| ensures IsWordChar(m.name[i]) {
      assert m.name[i] == cell[p + i];
    }
  }

  /** The '[' at k starts a match, and none at or after `from` before it does. */
  predicate FirstMatchAt(cell: string, from: nat, k: nat) {
    && from <= k < |cell|
    && MatchAt(cell, k).Some?
    && forall j :: from <= j < k ==> MatchAt(cell, j).None?
  }

  /** What `exec` finds is a match of the pattern, and no '[' before its own
      starts a match. */
  lemma {:induction false} ExecSound(cell: string, from: nat) returns (k: nat)
    requires from <= |cell| && ExecFrom(cell, from).Some?
    ensures FirstMatchAt(cell, from, k) && MatchAt(cell, k) == ExecFrom(cell, from)
    ensures PatternAt(cell, WordStart(cell, k), ExecFrom(cell, from).value)
    decreases |cell| - from
  {
    if MatchAt(cell, from).Some? {
      MatchAtSound(cell, from);
      k := from;
    } else {
      k := ExecSound(cell, from + 1);
      assert ExecFrom(cell, from) == ExecFrom(cell, from + 1);
    }
  }

  /** The word run ending at k starts at p when p..k are word characters and
      the character before p is not. */
  lemma {:induction false} WordStartAt(s: string, p: nat, k: nat)
    requires p <= k <= |s|
    requires forall i :: p <= i < k ==> IsWordChar(s[i])
    requires p == 0 || !IsWordChar(s[p - 1])
    ensures WordStart(s, k) == p
    decreases k - p
  {
    if p < k {
      WordStartAt(s, p, k - 1);
    }
  }

  /** Every occurrence of the pattern is found by the match at its '['. */
  lemma MatchAtComplete(cell: string, p: nat, m: ColumnMatch)
    requires PatternAt(cell, p, m)
    ensures MatchAt(cell, p + |m.name|) == Some(m)
  {
    var b := p + |m.name|;
    NameIsWordRun(cell, p, m.name);
    WordStartAt(cell, p, b);
    var rest := cell[b + 3..];
    assert rest[..|m.typ|] == m.typ;
    TypeAt(rest, m.typ);
  }

  /** The characters of a word name copied into the cell are word characters there. */
  lemma NameIsWordRun(cell: string, p: nat, name: string)
    requires p + |name| <= |cell| && cell[p..p + |name|] == name
    requires forall i :: 0 <= i < |name| ==> IsWordChar(name[i])
    ensures forall i :: p <= i < p + |name| ==> IsWordChar(cell[i])
  {
    forall i | p <= i < p + |name| ensures IsWordChar(cell[i]) {
      assert cell[i] == name[i - p];
    }
  }

  /** A text that starts with one type name does not start with the other. */
  lemma TypeAt(rest: string, typ: string)
    requires typ == "String" || typ == "Number"
    requires |typ| <= |rest| && rest[..|typ|] == typ
    ensures StartsWith(rest, typ)
    ensures typ == "Number" ==> !StartsWith(rest, "String")
  {
    assert rest[0] == typ[0];
  }

  /** A match at or after `from` means `exec` from there finds one. */
  lemma {:induction false} ExecComplete(cell: string, from: nat, k: nat)
    requires from <= k < |cell| && MatchAt(cell, k).Some?
    ensures ExecFrom(cell, from).Some?
    decreases k - from
  {
    if from < k && MatchAt(cell, from).None? {
      ExecComplete(cell, from + 1, k);
    }
  }

  /** `exec` finds a match exactly when the cell holds the pattern somewhere,
      so a header cell is refused (the TypeError on `cell.length`) exactly when
      no `name[R,Type` starts a word run in it. */
  lemma ExecColumnFinds(cell: string)
    ensures ExecColumn(cell).Some? <==> exists p: nat, m: ColumnMatch :: PatternAt(cell, p, m)
  {
    if ExecColumn(cell).Some? {
      var k := ExecSound(cell, 0);
    }
    if exists p: nat, m: ColumnMatch :: PatternAt(cell, p, m) {
      var p: nat, m: ColumnMatch :| PatternAt(cell, p, m);
      MatchAtComplete(cell, p, m);
      ExecComplete(cell, 0, p + |m.name|);
    }
  }

  /** A text that preprocessing empties (white space, line breaks and dots
      only) is refused for lack of a header. */
  lemma EmptyTextNoHeader(name: Option<string>, text: string)
    requires Preprocess(text) == []
    ensures Parsed(name, text) == Failure(NoHeader)
  {
    assert SplitLines([]) == [[]];
    assert Trim([]) == [];
  }

  /** The characters a numeral can consist of. */
  predicate IsNumeralChar(c: char) {
    IsWordChar(c) || c == '+' || c == '-'
  }

  lemma UnsignedNumeral(s: string)
    requires UnsignedBelowOne(s).Some?
    ensures forall i :: 0 <= i < |s| ==> IsNumeralChar(s[i])
  {
    if s != "Infinity" {
      var e := ExponentMark(s);
      if e != -1 {
        forall i | 0 <= i < |s| ensures IsNumeralChar(s[i]) {
          if i < e {
            assert s[i] == s[..e][i];
          } else if i > e + 1 {
            assert s[i] == s[e + 1..][1..][i - e - 2];
          }
        }
      }
    }
  }

  lemma TrimmedNumeral(t: string)
    ensures TrimmedBelowOne(t) ==> forall c :: c in t ==> IsNumeralChar(c)
  {
    if TrimmedBelowOne(t) && t != [] {
      if t[0] == '-' || t[0] == '+' {
        UnsignedNumeral(t[1..]);
        forall i | 1 <= i < |t| ensures IsNumeralChar(t[i]) {
          assert t[i] == t[1..][i - 1];
        }
      } else if |t| >= 2 && t[0] == '0' && t[1] in "xXoObB" {
        forall i | 2 <= i < |t| ensures IsNumeralChar(t[i]) {
          assert t[i] == '0';
        }
      } else {
        UnsignedNumeral(t);
      }
      NumeralChars(t);
    }
  }

  /** Numeral characters position by position are numeral characters member by member. */
  lemma NumeralChars(t: string)
    requires forall i :: 0 <= i < |t| ==> IsNumeralChar(t[i])
    ensures forall c :: c in t ==> IsNumeralChar(c)
  {
  }

  /** A text holding '[' does not read as a number below 1. */
  lemma BracketNotBelowOne(s: string)
    requires '[' in Trim(s)
    ensures !NumberBelowOne(s)
  {
    assert !IsNumeralChar('[');
  }

  /** Trimming keeps every character that is not white space. */
  lemma TrimKeeps(s: string, k: int)
    requires 0 <= k < |s| && !IsTrimmed(s[k])
    ensures s[k] in Trim(s)
  {
    var lead := LeadingCount(s, IsTrimmed);
    var trail := TrailingCount(s, IsTrimmed);
    assert lead <= k < |s| - trail;
    assert Trim(s)[k - lead] == s[k];
  }

  /** Trimming only removes characters. */
  lemma TrimSubset(s: string)
    ensures forall c :: c in Trim(s) ==> c in s
  {
    var lead := LeadingCount(s, IsTrimmed);
    if lead < |s| {
      var trail := TrailingCount(s, IsTrimmed);
      forall c | c in Trim(s) ensures c in s {
        var i :| 0 <= i < |Trim(s)| && Trim(s)[i] == c;
        assert s[lead + i] == c;
      }
    }
  }

  /** A character absent before the trim is absent after it. */
  lemma TrimKeepsOut(s: string, c: char)
    requires c !in s
    ensures c !in Trim(s)
  {
    TrimSubset(s);
  }

  /** A cell the column pattern matches holds a '['. */
  lemma MatchedCellHasBracket(cell: string) returns (k: nat)
    requires ExecColumn(cell).Some?
    ensures k < |cell| && cell[k] == '['
  {
    k := ExecSound(cell, 0);
  }

  /** The first part of a split is a prefix of the text. */
  lemma SplitFirstIsPrefix(s: string, sep: string)
    requires |sep| > 0
    ensures |Split(s, sep)[0]| <= |s| && Split(s, sep)[0] == s[..|Split(s, sep)[0]|]
  {
  }

  /** The first part of a join is a prefix of the joined text. */
  lemma JoinFirstIsPrefix(parts: seq<string>, sep: string)
    requires |parts| >= 1
    ensures |parts[0]| <= |Join(parts, sep)| && Join(parts, sep)[..|parts[0]|] == parts[0]
  {
    if |parts| > 1 {
      assert Join(parts, sep) == parts[0] + (sep + Join(parts[1..], sep));
    }
  }

  /** A text whose header cells all match is never refused as having no
      header: its header holds a '[', which no numeral does. */
  lemma MatchingHeaderIsNotNumeric(text: string)
    requires HeaderMatches(Split(SplitLines(Preprocess(text))[0], "],"))
    ensures !NumberBelowOne(Join(SplitLines(Preprocess(text)), ","))
  {
    var lines := SplitLines(Preprocess(text));
    var cell := Split(lines[0], "],")[0];
    var k := MatchedCellHasBracket(cell);
    SplitFirstIsPrefix(lines[0], "],");
    assert lines[0][k] == '[';
    var j := Join(lines, ",");
    JoinFirstIsPrefix(lines, ",");
    assert j[k] == '[';
    TrimKeeps(j, k);
    BracketNotBelowOne(j);
  }

  /** The outcome of a parse whose header cells all match: the rows decide
      between success and a width mismatch, and a success holds exactly the
      header's columns and the rows' cells. */
  lemma ParsedOutcome(name: Option<string>, text: string)
    requires HeaderMatches(Split(SplitLines(Preprocess(text))[0], "],"))
    ensures var lines := SplitLines(Preprocess(text));
      var cells := Split(lines[0], "],");
      && (RowsFit(lines[1..], |cells|) ==> Parsed(name, text) == Success(DatasetObject(name, HeaderColumns(cells), RowCells(lines[1..]))))
      && (!RowsFit(lines[1..], |cells|) ==> Parsed(name, text) == Failure(RowSizeInconsistent))
  {
    MatchingHeaderIsNotNumeric(text);
  }

  /** What a successful parse is made of: the header line's cells all match
      and give the columns, and the remaining lines fit and give the rows. */
  lemma ParsedParts(name: Option<string>, text: string)
    requires Parsed(name, text).Success?
    ensures var lines := SplitLines(Preprocess(text));
            var cells := Split(lines[0], "],");
            var d := Parsed(name, text).value;
            && HeaderMatches(cells) && d.structure == HeaderColumns(cells)
            && RowsFit(lines[1..], |cells|) && d.data == RowCells(lines[1..])
  {
  }

  /** Each column built from a matching header cell has a non-empty word name,
      a role among IDENTIFIER, MEASURE and ATTRIBUTE, and the type "java.lang."
      followed by String or Number. */
  lemma HeaderColumnsShape(cells: seq<string>)
    requires HeaderMatches(cells)
    ensures forall i :: 0 <= i < |cells| ==>
              && |HeaderColumns(cells)[i].name| > 0
              && HeaderColumns(cells)[i].role in ["IDENTIFIER", "MEASURE", "ATTRIBUTE"]
              && HeaderColumns(cells)[i].typ == "java.lang." + HeaderColumns(cells)[i].typ[10..]
              && HeaderColumns(cells)[i].typ[10..] in ["String", "Number"]
  {
    forall i | 0 <= i < |cells|
      ensures && |HeaderColumns(cells)[i].name| > 0
              && HeaderColumns(cells)[i].role in ["IDENTIFIER", "MEASURE", "ATTRIBUTE"]
              && HeaderColumns(cells)[i].typ == "java.lang." + HeaderColumns(cells)[i].typ[10..]
              && HeaderColumns(cells)[i].typ[10..] in ["String", "Number"]
    {
      var m := ExecColumn(cells[i]).value;
      var k := ExecSound(cells[i], 0);
      assert HeaderColumns(cells)[i] == ToColumn(m);
      assert HeaderColumns(cells)[i].typ == "java.lang." + m.typ;
    }
  }

  /** Column i of a parsed dataset comes from header cell i: the cell holds
      the text `name[R,Type` of the match at some position p, and the column
      carries that name, R spelled out as a role, and "java.lang." + Type. */
  lemma ParsedColumnAt(name: Option<string>, text: string, i: nat) returns (p: nat, m: ColumnMatch)
    requires Parsed(name, text).Success?
    requires i < |Split(SplitLines(Preprocess(text))[0], "],")|
    ensures var cell := Split(SplitLines(Preprocess(text))[0], "],")[i];
            var column := Parsed(name, text).value.structure[i];
            && ExecColumn(cell) == Some(m) && PatternAt(cell, p, m)
            && column.name == m.name && column.role == RoleName(m.role) && column.typ == "java.lang." + m.typ
  {
    ParsedParts(name, text);
    var cells := Split(SplitLines(Preprocess(text))[0], "],");
    m := ExecColumn(cells[i]).value;
    var k := ExecSound(cells[i], 0);
    p := WordStart(cells[i], k);
    assert HeaderColumns(cells)[i] == ToColumn(m);
  }

  /** Rows that fit keep their lines: each has `width` cells, and joining them
      with ',' gives the line back. */
  lemma RowCellsRoundTrip(rows: seq<string>, width: nat)
    requires RowsFit(rows, width)
    ensures forall i :: 0 <= i < |rows| ==>
              |RowCells(rows)[i]| == width && Join(RowCells(rows)[i], ",") == rows[i]
  {
    forall i | 0 <= i < |rows| ensures Join(RowCells(rows)[i], ",") == rows[i] {
      SplitJoin(rows[i], ",");
    }
  }

  /** A successful parse keeps every line after the header: the row has as
      many cells as the header, and joining them with ',' gives the line. */
  lemma ParsedRowsRoundTrip(name: Option<string>, text: string)
    requires Parsed(name, text).Success?
    ensures var d := Parsed(name, text).value;
            var lines := SplitLines(Preprocess(text));
            && |d.data| == |lines| - 1
            && forall i :: 0 <= i < |d.data| ==>
                 |d.data[i]| == |d.structure| && Join(d.data[i], ",") == lines[i + 1]
  {
    ParsedParts(name, text);
    var lines := SplitLines(Preprocess(text));
    RowCellsRoundTrip(lines[1..], |Split(lines[0], "],")|);
  }

  /** Replacing the dots leaves none. */
  lemma DotsRemoved(s: string)
    ensures '.' !in DotsToSpaces(s)
  {
    var r := DotsToSpaces(s);
    assert forall i :: 0 <= i < |r| ==> r[i] != '.';
  }

  // ---------------------------------------------------------------------------
  // What the trim and the replace produce

  /** Every character of `w` is white space. */
  predicate AllTrimmed(w: string) {
    forall i :: 0 <= i < |w| ==> IsTrimmed(w[i])
  }

  lemma AllTrimmedConcat(x: string, y: string)
    requires AllTrimmed(x) && AllTrimmed(y)
    ensures AllTrimmed(x + y)
  {
  }

  /** A prefix length that meets the definition of `LeadingCount` is it. */
  lemma {:induction false} LeadingCountIs(s: string, p: char -> bool, n: nat)
    requires n <= |s|
    requires forall i :: 0 <= i < n ==> p(s[i])
    requires n < |s| ==> !p(s[n])
    ensures LeadingCount(s, p) == n
    decreases n
  {
    if n > 0 {
      LeadingCountIs(s[1..], p, n - 1);
    }
  }

  /** A suffix length that meets the definition of `TrailingCount` is it. */
  lemma {:induction false} TrailingCountIs(s: string, p: char -> bool, n: nat)
    requires n <= |s|
    requires forall i :: |s| - n <= i < |s| ==> p(s[i])
    requires n < |s| ==> !p(s[|s| - n - 1])
    ensures TrailingCount(s, p) == n
    decreases n
  {
    if n > 0 {
      TrailingCountIs(s[..|s| - 1], p, n - 1);
    }
  }

  /** The trim removes white space from the two ends and keeps the middle:
      the text is the trimmed text between two runs of white space. */
  lemma TrimInfix(s: string) returns (a: string, b: string)
    ensures s == a + Trim(s) + b
    ensures AllTrimmed(a) && AllTrimmed(b)
  {
    var lead := LeadingCount(s, IsTrimmed);
    if lead == |s| {
      assert Trim(s) == [];
      a, b := s, [];
      assert s == a + Trim(s) + b;
    } else {
      var trail := TrailingCount(s, IsTrimmed);
      assert !IsTrimmed(s[lead]);
      TrimOfCounts(s, lead, trail);
      a, b := s[..lead], s[|s| - trail..];
      SliceSplit(s, lead, |s| - trail);
      forall i | 0 <= i < |b| ensures IsTrimmed(b[i]) {
        assert b[i] == s[|s| - trail + i];
      }
    }
  }

  /** Cutting a text at two positions and gluing the pieces gives it back. */
  lemma SliceSplit(s: string, i: nat, j: nat)
    requires i <= j <= |s|
    ensures s == s[..i] + s[i..j] + s[j..]
  {
  }

  /** The trim is the only way to strip white space from both ends: a text
      that is white space, then `t`, then white space, trims to `t` when `t`
      neither starts nor ends with white space. */
  lemma TrimUnique(s: string, a: string, t: string, b: string)
    requires s == a + t + b
    requires AllTrimmed(a) && AllTrimmed(b)
    requires t == [] || (!IsTrimmed(t[0]) && !IsTrimmed(t[|t| - 1]))
    ensures Trim(s) == t
  {
    if t == [] {
      assert s == a + b;
      AllTrimmedConcat(a, b);
      LeadingCountIs(s, IsTrimmed, |s|);
    } else {
      TrimCounts(s, a, t, b);
      TrimOfCounts(s, |a|, |b|);
      assert s[|a|..|s| - |b|] == t;
    }
  }

  /** The white space before and after a non-empty `t` with non-white ends
      is what the two counts measure. */
  lemma TrimCounts(s: string, a: string, t: string, b: string)
    requires s == a + t + b && t != []
    requires AllTrimmed(a) && AllTrimmed(b)
    requires !IsTrimmed(t[0]) && !IsTrimmed(t[|t| - 1])
    ensures LeadingCount(s, IsTrimmed) == |a| && TrailingCount(s, IsTrimmed) == |b|
  {
    forall i | 0 <= i < |a| ensures IsTrimmed(s[i]) {
      assert s[i] == a[i];
    }
    assert s[|a|] == t[0];
    LeadingCountIs(s, IsTrimmed, |a|);
    forall i | |s| - |b| <= i < |s| ensures IsTrimmed(s[i]) {
      assert s[i] == b[i - (|s| - |b|)];
    }
    assert s[|s| - |b| - 1] == t[|t| - 1];
    TrailingCountIs(s, IsTrimmed, |b|);
  }

  /** The trim of a text that is not all white space, from its two counts. */
  lemma TrimOfCounts(s: string, lead: nat, trail: nat)
    requires lead < |s| && lead + trail < |s|
    requires LeadingCount(s, IsTrimmed) == lead && TrailingCount(s, IsTrimmed) == trail
    ensures Trim(s) == s[lead..|s| - trail]
  {
  }

  /** A text without '.' is kept by the replacement of dots. */
  lemma DotsFree(s: string)
    requires '.' !in s
    ensures DotsToSpaces(s) == s
  {
  }

  /** Replacing dots works piece by piece. */
  lemma DotsThree(s: string, i: nat, j: nat)
    requires i <= j <= |s|
    ensures DotsToSpaces(s) == DotsToSpaces(s[..i]) + DotsToSpaces(s[i..j]) + DotsToSpaces(s[j..])
  {
    var x, y, z := DotsToSpaces(s[..i]), DotsToSpaces(s[i..j]), DotsToSpaces(s[j..]);
    forall k | 0 <= k < |s| ensures DotsToSpaces(s)[k] == (x + y + z)[k] {
      if k < i {
        assert s[..i][k] == s[k];
      } else if k < j {
        assert s[i..j][k - i] == s[k];
      } else {
        assert s[j..][k - j] == s[k];
      }
    }
  }

  /** Line breaks are white space. */
  lemma NewlinesTrimmed(w: string)
    requires forall i :: 0 <= i < |w| ==> IsNewline(w[i])
    ensures AllTrimmed(w) && '.' !in w
  {
  }

  /** Regrouping a text made of five pieces around its middle piece. */
  lemma Regroup(p: string, a: string, t: string, b: string, q: string)
    ensures p + (a + t + b) + q == (p + a) + t + (b + q)
  {
  }

  /** White space around a text does not change its trim. */
  lemma TrimAround(p: string, m: string, q: string)
    requires AllTrimmed(p) && AllTrimmed(q)
    ensures Trim(p + m + q) == Trim(m)
  {
    var t := Trim(m);
    var a, b := TrimInfix(m);
    Regroup(p, a, t, b, q);
    AllTrimmedConcat(p, a);
    AllTrimmedConcat(b, q);
    TrimUnique(p + m + q, p + a, t, b + q);
  }

  /** The replace and the trim together equal a trim after turning each '.'
      into a space: the runs of line breaks that the replace turns into one
      space at either end are white space the trim removes anyway. */
  lemma PreprocessIsTrimDots(text: string)
    ensures Preprocess(text) == Trim(DotsToSpaces(text))
  {
    var lead := LeadingCount(text, IsNewline);
    if lead == |text| {
      var replaced, dotted := ReplaceRunsAndDots(text), DotsToSpaces(text);
      NewlinesTrimmed(text);
      DotsFree(text);
      TrimUnique(dotted, dotted, [], []);
      assert AllTrimmed(replaced);
      TrimUnique(replaced, replaced, [], []);
    } else {
      var trail := TrailingCount(text, IsNewline);
      assert !IsNewline(text[lead]);
      var mid := text[lead..|text| - trail];
      assert ReplaceRunsAndDots(text) == ReplaceMiddle(text, lead, trail);
      ReplaceParts(text, lead, trail);
      TrimAround(SpaceIf(lead > 0), DotsToSpaces(mid), SpaceIf(trail > 0));
      var head, tail := DottedParts(text, lead, trail);
      TrimAround(head, DotsToSpaces(mid), tail);
    }
  }

  /** The replace of a text that is not all line breaks, in three pieces. */
  lemma ReplaceParts(text: string, lead: nat, trail: nat)
    requires lead < |text| && lead + trail <= |text|
    ensures ReplaceMiddle(text, lead, trail) == SpaceIf(lead > 0) + DotsToSpaces(text[lead..|text| - trail]) + SpaceIf(trail > 0)
  {
  }

  /** Turning dots into spaces, when the text starts with `lead` and ends
      with `trail` line breaks: the middle with its dots replaced, between
      the two runs of line breaks. */
  lemma DottedParts(text: string, lead: nat, trail: nat) returns (head: string, tail: string)
    requires lead + trail <= |text|
    requires forall i :: 0 <= i < lead ==> IsNewline(text[i])
    requires forall i :: |text| - trail <= i < |text| ==> IsNewline(text[i])
    ensures DotsToSpaces(text) == head + DotsToSpaces(text[lead..|text| - trail]) + tail
    ensures AllTrimmed(head) && AllTrimmed(tail)
  {
    head, tail := text[..lead], text[|text| - trail..];
    forall i | 0 <= i < |tail| ensures IsNewline(tail[i]) {
      assert tail[i] == text[|text| - trail + i];
    }
    NewlinesTrimmed(head);
    NewlinesTrimmed(tail);
    DotsFree(head);
    DotsFree(tail);
    DotsThree(text, lead, |text| - trail);
  }

  /** One space when `b` holds, nothing otherwise: white space either way. */
  function SpaceIf(b: bool): (w: string)
    ensures AllTrimmed(w)
  {
    if b then " " else ""
  }

}
