/** The text of character dumps: rows printed as SQL lines, and fields found again and changed in the text. */
module DumpText {

  import opened Wrappers

  /** The fields of a row as they are printed; a null has no text. */
  type Row = seq<Option<string>>

  // ----- Searching in a text -----

  /** First position of a character, from a position on that may lie beyond the end. */
  function FindChar(s: string, c: char, from: nat): (r: Option<nat>)
    ensures r.Some? ==> from <= r.value < |s|
    decreases |s| - from
  {
    if from >= |s| then None
    else if s[from] == c then Some(from)
    else FindChar(s, c, from + 1)
  }

  lemma {:induction false} FindCharIsFirst(s: string, c: char, from: nat)
    ensures match FindChar(s, c, from)
            case Some(at) => s[at] == c && c !in s[from..at]
            case None => from >= |s| || c !in s[from..]
    decreases |s| - from
  {
    if from < |s| && s[from] != c {
      FindCharIsFirst(s, c, from + 1);
      match FindChar(s, c, from + 1)
      case Some(at) => assert s[from..at] == [s[from]] + s[from + 1..at];
      case None => assert s[from..] == [s[from]] + s[from + 1..];
    }
  }

  predicate MatchesAt(s: string, t: string, p: nat) { p + |t| <= |s| && s[p..p + |t|] == t }

  function FindText(s: string, t: string, from: nat): (r: Option<nat>)
    ensures r.Some? ==> from <= r.value && MatchesAt(s, t, r.value)
    decreases |s| - from
  {
    if from + |t| > |s| then None
    else if MatchesAt(s, t, from) then Some(from)
    else FindText(s, t, from + 1)
  }

  lemma {:induction false} FindCharAt(s: string, c: char, from: nat, at: nat)
    requires from <= at < |s| && s[at] == c && c !in s[from..at]
    ensures FindChar(s, c, from) == Some(at)
    decreases at - from
  {
    if from < at {
      assert s[from] == s[from..at][0];
      assert s[from + 1..at] == s[from..at][1..];
      FindCharAt(s, c, from + 1, at);
    }
  }

  lemma {:induction false} FindTextAt(s: string, t: string, from: nat, at: nat)
    requires from <= at && MatchesAt(s, t, at)
    requires forall p :: from <= p < at ==> !MatchesAt(s, t, p)
    ensures FindText(s, t, from) == Some(at)
    decreases at - from
  {
    if from < at { FindTextAt(s, t, from + 1, at); }
  }

  // ----- The n-th field of a line -----

  const VALUES := "VALUES ('"

  /** Where the first field starts; a line without values is searched from position 8, because the
      position that stands for "not found" wraps around. */
  function FirstField(line: string): nat {
    match FindText(line, VALUES, 0)
    case None => 8
    case Some(i) => i + |VALUES|
  }

  /** The first field starts behind the first place where values begin; where none do, at 8. */
  lemma FirstFieldExactly(line: string)
    ensures forall i: nat ::
              MatchesAt(line, "VALUES ('", i) && (forall j: nat :: j < i ==> !MatchesAt(line, "VALUES ('", j)) ==>
                FirstField(line) == i + 9
    ensures (forall i: nat :: !MatchesAt(line, "VALUES ('", i)) ==> FirstField(line) == 8
  {
    forall i: nat | MatchesAt(line, VALUES, i) && (forall j: nat :: j < i ==> !MatchesAt(line, VALUES, j))
      ensures FirstField(line) == i + 9
    {
      FindTextAt(line, VALUES, 0, i);
    }
  }

  predicate Escaped(line: string, e: nat)
    requires e < |line|
  {
    e > 0 && line[e - 1] == '\\'
  }

  /** Where a field that is searched from s starts and ends: behind each escaped quote the search goes on four
      characters further, as if another field began there. */
  function QuoteFrom(line: string, s: nat): (r: Option<(nat, nat)>)
    ensures r.Some? ==> s <= r.value.0 <= r.value.1 < |line|
    decreases |line| - s
  {
    match FindChar(line, '\'', s)
    case None => None
    case Some(e) => if Escaped(line, e) then QuoteFrom(line, e + 4) else Some((s, e))
  }

  function FieldFrom(line: string, s: nat, n: int): Option<(nat, nat)>
    decreases n
  {
    match QuoteFrom(line, s)
    case None => None
    case Some((b, e)) => if n <= 1 then Some((b, e)) else FieldFrom(line, e + 4, n - 1)
  }

  lemma FieldFromNext(line: string, s: nat, n: int, b: nat, e: nat)
    requires QuoteFrom(line, s) == Some((b, e))
    ensures FieldFrom(line, s, n) == if n <= 1 then Some((b, e)) else FieldFrom(line, e + 4, n - 1)
  {
  }

  /** The end of the first field is searched from the same place again and again when the first quote behind its
      start is an escaped one. */
  predicate Hangs(line: string) {
    var q := FindChar(line, '\'', FirstField(line));
    q.Some? && Escaped(line, q.value)
  }

  /** Start and end of the n-th field, in a line on which the search ends. */
  function FindNth(line: string, n: int): (r: Option<(nat, nat)>)
  {
    FieldFrom(line, FirstField(line), n)
  }

  lemma {:induction false} QuoteFromSound(line: string, s: nat)
    ensures QuoteFrom(line, s).Some? ==>
              var (b, e) := QuoteFrom(line, s).value;
              '\'' !in line[b..e] && !Escaped(line, e)
    decreases |line| - s
  {
    FindCharIsFirst(line, '\'', s);
    match FindChar(line, '\'', s)
    case None =>
    case Some(e) => if Escaped(line, e) { QuoteFromSound(line, e + 4); }
  }

  lemma {:induction false} FieldFromOrdered(line: string, s: nat, n: int)
    ensures FieldFrom(line, s, n).Some? ==>
              var (b, e) := FieldFrom(line, s, n).value;
              b <= e < |line| && '\'' !in line[b..e] && !Escaped(line, e)
    decreases n
  {
    QuoteFromSound(line, s);
    match QuoteFrom(line, s)
    case None =>
    case Some((b, e)) => if n > 1 { FieldFromOrdered(line, e + 4, n - 1); }
  }

  /** What comes of a search: a place, nothing, or no end. */
  datatype Search = At(s: nat, e: nat) | Absent | Forever

  /** The search for the n-th field. It does not end exactly when the first quote behind the start of the first
      field is escaped. */
  method FindNthField(line: string, n: int) returns (r: Search)
    ensures r == Forever <==> Hangs(line)
    ensures r != Forever ==> FindNth(line, n) == if r.Absent? then None else Some((r.s, r.e))
  {
    var s := FirstField(line);
    var found := FindChar(line, '\'', s);
    if found == None { return Absent; }
    var e := found.value;
    if Escaped(line, e) { return Forever; }
    QuoteFound(line, s, e);
    var i := 1;
    while i < n
      invariant QuoteFrom(line, s) == Some((s, e)) && !Hangs(line)
      invariant FindNth(line, n) == FieldFrom(line, s, n - i + 1)
    {
      var next := NextField(line, e + 4);
      OneFurther(line, s, e, n - i + 1);
      if next == None { return Absent; }
      s, e := next.value.0, next.value.1;
      i := i + 1;
    }
    FieldFromNext(line, s, n - i + 1, s, e);
    r := At(s, e);
  }

  lemma QuoteFound(line: string, s: nat, e: nat)
    requires FindChar(line, '\'', s) == Some(e) && !Escaped(line, e)
    ensures QuoteFrom(line, s) == Some((s, e))
  {
  }

  /** The search for one more field: it starts again behind each escaped quote. */
  method NextField(line: string, from: nat) returns (r: Option<(nat, nat)>)
    ensures r == QuoteFrom(line, from)
  {
    var s := from;
    var found := FindChar(line, '\'', s);
    while found.Some? && Escaped(line, found.value)
      invariant found == FindChar(line, '\'', s) && QuoteFrom(line, from) == QuoteFrom(line, s)
      decreases |line| - s
    {
      s := found.value + 4;
      found := FindChar(line, '\'', s);
    }
    r := if found == None then None else Some((s, found.value));
  }

  /** The next search begins behind the field just found. */
  lemma OneFurther(line: string, s: nat, e: nat, n: int)
    requires QuoteFrom(line, s) == Some((s, e)) && n > 1
    ensures match QuoteFrom(line, e + 4)
            case None => FieldFrom(line, s, n) == None
            case Some((s', e')) =>
              FieldFrom(line, s, n) == FieldFrom(line, s', n - 1) && QuoteFrom(line, s') == Some((s', e'))
  {
    FieldFromNext(line, s, n, s, e);
    if QuoteFrom(line, e + 4).Some? {
      var (s', e') := QuoteFrom(line, e + 4).value;
      QuoteFromAgain(line, e + 4);
      FieldFromNext(line, e + 4, n - 1, s', e');
      FieldFromNext(line, s', n - 1, s', e');
    }
  }

  lemma {:induction false} QuoteFromAgain(line: string, s: nat)
    requires QuoteFrom(line, s).Some?
    ensures QuoteFrom(line, QuoteFrom(line, s).value.0) == QuoteFrom(line, s)
    decreases |line| - s
  {
    var e := FindChar(line, '\'', s).value;
    if Escaped(line, e) { QuoteFromAgain(line, e + 4); }
  }

  function GetNth(line: string, n: int): string {
    match FindNth(line, n)
    case None => ""
    case Some((s, e)) => FieldFromOrdered(line, FirstField(line), n); line[s..e]
  }

  /** The line with its n-th field replaced, or put in front of; a field "0" may be left alone. */
  function ChangeNth(line: string, n: int, text: string, insert: bool, nonzero: bool): Option<string> {
    match FindNth(line, n)
    case None => None
    case Some((s, e)) =>
      FieldFromOrdered(line, FirstField(line), n);
      if nonzero && line[s..e] == "0" then Some(line)
      else if insert then Some(line[..s] + text + line[s..])
      else Some(line[..s] + text + line[e..])
  }

  function GetTableName(line: string): string {
    match FindChar(line, '`', 13)
    case None => ""
    case Some(e) => line[13..e]
  }

  // ----- Printing a row -----

  /** A text that is printed as it is: no quote in it, and no backslash before the one behind it. */
  predicate Clean(s: string) { '\'' !in s && (s != "" ==> s[|s| - 1] != '\\') }

  predicate CleanField(field: Option<string>) { field.Some? && Clean(field.value) }

  /** The first n fields are clean texts, or all are if there are fewer; any fields and nulls may follow. */
  predicate CleanUpTo(row: Row, n: nat) {
    row != [] && forall i :: 0 <= i < |row| && i < n ==> CleanField(row[i])
  }

  predicate TableName(t: string) { '\'' !in t && '`' !in t }

  function Quoted(f: string): string { "'" + f + "'" }

  function FieldText(field: Option<string>): string {
    match field case None => "NULL" case Some(f) => Quoted(f)
  }

  function PrintFields(row: Row): string {
    if row == [] then ""
    else if |row| == 1 then FieldText(row[0])
    else FieldText(row[0]) + ", " + PrintFields(row[1..])
  }

  function Head(t: string): string { "INSERT INTO `" + t + "` VALUES (" }

  function Print(t: string, row: Row): string { Head(t) + PrintFields(row) + ");" }

  /** A line as it stands in a file, with or without its line break. */
  predicate LineEnd(end: string) { end == "" || end == "\n" }

  // ----- Printing and finding agree -----

  lemma HeadHasNoQuote(t: string)
    requires '\'' !in t
    ensures '\'' !in Head(t) && |Head(t)| == |t| + 23
  {
  }

  /** The first field is found right behind its opening quote. */
  lemma FirstFieldAt(line: string, t: string, rest: string)
    requires '\'' !in t && line == Head(t) + "'" + rest
    ensures FirstField(line) == |Head(t)| + 1
  {
    HeadHasNoQuote(t);
    var at := |t| + 15;
    assert line[at..at + 9] == VALUES;
    forall p | 0 <= p < at ensures !MatchesAt(line, VALUES, p) {
      assert line[p..p + 9][8] == line[p + 8] == Head(t)[p + 8];
    }
    FindTextAt(line, VALUES, 0, at);
  }

  /** A found field, and the line with it replaced and put in front of. */
  ghost predicate Hit(line: string, found: Option<(nat, nat)>, field: string, w: string,
                      replaced: string, inserted: string)
  {
    && found.Some?
    && var (s, e) := found.value;
       && s <= e <= |line| && line[s..e] == field
       && line[..s] + w + line[e..] == replaced && line[..s] + w + line[s..] == inserted
  }

  lemma Cut<T>(a: seq<T>, b: seq<T>, c: seq<T>)
    ensures var s := a + b + c;
            s[..|a|] == a && s[|a|..|a| + |b|] == b && s[|a| + |b|..] == c && s[|a|..] == b + c
  {
  }

  lemma CutField(a: string, f: string, c: string, w: string)
    ensures Hit(a + f + c, Some((|a|, |a| + |f|)), f, w, a + w + c, a + (w + f) + c)
  {
    Cut(a, f, c);
    assert a + w + (f + c) == a + (w + f) + c;
  }

  function PrintIn(pre: string, row: Row, tail: string): string { pre + PrintFields(row) + tail }

  /** What stands before the field after a given one. */
  function Behind(pre: string, field: Option<string>): string { pre + FieldText(field) + ", " }

  /** What stands behind a field that is followed by others. */
  function After(rest: Row, tail: string): string {
    if rest == [] then tail else ", " + PrintFields(rest) + tail
  }

  lemma PrintCons(pre: string, field: Option<string>, rest: Row, tail: string)
    ensures PrintIn(pre, [field] + rest, tail) == pre + FieldText(field) + After(rest, tail)
  {
    if rest == [] {
      assert [field] + rest == [field];
    } else {
      assert ([field] + rest)[1..] == rest;
      Regroup(pre, FieldText(field), ", ", PrintFields(rest), tail);
    }
  }

  lemma PrintFurther(pre: string, field: Option<string>, rest: Row, tail: string)
    requires rest != []
    ensures PrintIn(pre, [field] + rest, tail) == PrintIn(Behind(pre, field), rest, tail)
  {
    assert ([field] + rest)[1..] == rest;
    Associate(pre, FieldText(field), ", ", PrintFields(rest));
  }

  lemma Regroup<T>(a: seq<T>, b: seq<T>, c: seq<T>, d: seq<T>, e: seq<T>)
    ensures a + (b + c + d) + e == a + b + (c + d + e)
    ensures a + (b + c + d) + e == (a + b) + c + (d + e)
  {
  }

  lemma Associate<T>(a: seq<T>, b: seq<T>, c: seq<T>, d: seq<T>)
    ensures a + b + c + d == a + (b + c + d) == a + b + (c + d)
  {
  }

  /** All that is printed before the i-th field. */
  function Prefix(pre: string, row: Row, i: nat): string
    requires i <= |row|
  {
    if i == 0 then pre else Behind(Prefix(pre, row, i - 1), row[i - 1])
  }

  function Width(field: Option<string>): nat { match field case None => 4 case Some(f) => |f| + 2 }

  /** Where the text of the i-th field begins, in a row printed behind `from` characters. */
  function Start(from: nat, row: Row, i: nat): nat
    requires i <= |row|
  {
    if i == 0 then from + 1 else Start(from, row, i - 1) + Width(row[i - 1]) + 2
  }

  /** Where the text of the i-th field begins and ends. */
  function Place(from: nat, row: Row, i: nat): (nat, nat)
    requires i < |row| && row[i].Some?
  {
    (Start(from, row, i), Start(from, row, i) + |row[i].value|)
  }

  lemma {:induction false} PrefixEnds(pre: string, row: Row, i: nat)
    requires i <= |row|
    ensures Start(|pre|, row, i) == |Prefix(pre, row, i)| + 1
  {
    if i > 0 { PrefixEnds(pre, row, i - 1); }
  }

  lemma {:induction false} SplitAt(pre: string, row: Row, tail: string, i: nat)
    requires i < |row|
    ensures PrintIn(pre, row, tail) == PrintIn(Prefix(pre, row, i), row[i..], tail)
  {
    if i == 0 {
      assert row[0..] == row;
    } else {
      SplitAt(pre, row, tail, i - 1);
      assert row[i - 1..] == [row[i - 1]] + row[i..];
      PrintFurther(Prefix(pre, row, i - 1), row[i - 1], row[i..], tail);
    }
  }

  /** The line cut at the i-th field. */
  lemma FieldAt(pre: string, row: Row, tail: string, i: nat, f: string)
    requires i < |row| && row[i] == Some(f)
    ensures PrintIn(pre, row, tail) == (Prefix(pre, row, i) + "'") + f + ("'" + After(row[i + 1..], tail))
  {
    SplitAt(pre, row, tail, i);
    assert row[i..] == [Some(f)] + row[i + 1..];
    FieldFirst(Prefix(pre, row, i), f, row[i + 1..], tail);
  }

  lemma FieldFirst(pre: string, f: string, rest: Row, tail: string)
    ensures PrintIn(pre, [Some(f)] + rest, tail) == (pre + "'") + f + ("'" + After(rest, tail))
  {
    PrintCons(pre, Some(f), rest, tail);
    Regroup(pre, "'", f, "'", After(rest, tail));
  }

  lemma {:induction false} PrefixSame(pre: string, row: Row, row': Row, i: nat)
    requires i <= |row| && i <= |row'| && row[..i] == row'[..i]
    ensures Prefix(pre, row, i) == Prefix(pre, row', i)
  {
    if i > 0 {
      assert row[..i - 1] == row[..i][..i - 1] && row'[..i - 1] == row'[..i][..i - 1];
      assert row[i - 1] == row[..i][i - 1] && row'[i - 1] == row'[..i][i - 1];
      PrefixSame(pre, row, row', i - 1);
    }
  }

  lemma FieldReplaced(pre: string, row: Row, tail: string, i: nat, w: string)
    requires i < |row|
    ensures PrintIn(pre, row[i := Some(w)], tail) == (Prefix(pre, row, i) + "'") + w + ("'" + After(row[i + 1..], tail))
  {
    var row' := row[i := Some(w)];
    FieldAt(pre, row', tail, i, w);
    PrefixSame(pre, row, row', i);
    assert row'[i + 1..] == row[i + 1..];
  }

  /** At its place the i-th field is read, replaced and put in front of. */
  lemma PlaceIsHit(line: string, pre: string, row: Row, tail: string, i: nat, f: string, w: string)
    requires i < |row| && row[i] == Some(f) && line == PrintIn(pre, row, tail)
    ensures Hit(line, Some(Place(|pre|, row, i)), f, w, PrintIn(pre, row[i := Some(w)], tail),
                PrintIn(pre, row[i := Some(w + f)], tail))
  {
    PrefixEnds(pre, row, i);
    FieldAt(pre, row, tail, i, f);
    FieldReplaced(pre, row, tail, i, w);
    FieldReplaced(pre, row, tail, i, w + f);
    CutField(Prefix(pre, row, i) + "'", f, "'" + After(row[i + 1..], tail), w);
  }

  lemma FindQuote(line: string, at: nat, e: nat, a: string, f: string, c: string)
    requires Clean(f) && c != "" && c[0] == '\'' && line == a + "'" + f + c && at == |a| + 1 && e == at + |f|
    ensures FindChar(line, '\'', at) == Some(e) && QuoteFrom(line, at) == Some((at, e))
  {
    assert line[e] == c[0];
    forall i | at <= i < e ensures line[i] == f[i - at] {
    }
    FindCharAt(line, '\'', at, e);
    assert line[e - 1] == if f == "" then '\'' else f[|f| - 1];
  }

  /** What may stand behind the last field. */
  predicate Tail(tail: string) { |tail| <= 3 && '\'' !in tail }

  /** From its beginning a field is found where it was printed, and the next one begins four characters on. */
  ghost predicate IsFound(line: string, from: nat, row: Row, i: nat)
    requires i < |row|
  {
    && row[i].Some? && QuoteFrom(line, Start(from, row, i)) == Some(Place(from, row, i))
    && (i + 1 == |row| ==> Start(from, row, i + 1) >= |line|)
  }

  ghost predicate AreFound(line: string, from: nat, row: Row, i: nat, n: nat) {
    forall k :: i <= k < |row| && k < i + n ==> IsFound(line, from, row, k)
  }

  lemma FieldIsFound(line: string, pre: string, row: Row, tail: string, i: nat)
    requires i < |row| && CleanField(row[i]) && Tail(tail) && line == PrintIn(pre, row, tail)
    ensures IsFound(line, |pre|, row, i)
    ensures FindChar(line, '\'', Start(|pre|, row, i)) == Some(Place(|pre|, row, i).1)
  {
    var f, c := row[i].value, "'" + After(row[i + 1..], tail);
    FieldAt(pre, row, tail, i, f);
    CutIsFound(line, pre, row, i, f, c);
  }

  lemma CutIsFound(line: string, pre: string, row: Row, i: nat, f: string, c: string)
    requires i < |row| && row[i] == Some(f) && Clean(f) && line == (Prefix(pre, row, i) + "'") + f + c
    requires c != "" && c[0] == '\'' && (i + 1 == |row| ==> |c| <= 4)
    ensures IsFound(line, |pre|, row, i)
    ensures FindChar(line, '\'', Start(|pre|, row, i)) == Some(Place(|pre|, row, i).1)
  {
    PrefixEnds(pre, row, i);
    var a := Prefix(pre, row, i);
    FindQuote(line, |a| + 1, |a| + 1 + |f|, a, f, c);
  }

  lemma NothingBeyond(line: string, s: nat, n: int)
    requires s >= |line|
    ensures FieldFrom(line, s, n) == None
  {
  }

  /** The n-th search from the i-th field on finds the field n - 1 further on, if all up to it are found from their
      beginnings, and nothing if there is none. */
  lemma {:induction false} FoundFrom(line: string, from: nat, row: Row, i: nat, n: nat)
    requires i < |row| && n >= 1 && AreFound(line, from, row, i, n)
    ensures i + n > |row| ==> FieldFrom(line, Start(from, row, i), n) == None
    ensures i + n <= |row| ==>
              IsFound(line, from, row, i + n - 1)
              && FieldFrom(line, Start(from, row, i), n) == Some(Place(from, row, i + n - 1))
    decreases n
  {
    assert IsFound(line, from, row, i);
    var (b, e) := Place(from, row, i);
    FieldFromNext(line, b, n, b, e);
    if n > 1 && i + 1 == |row| {
      NothingBeyond(line, e + 4, n - 1);
    } else if n > 1 {
      FoundFrom(line, from, row, i + 1, n - 1);
    }
  }

  lemma PrintedIsFound(line: string, pre: string, row: Row, tail: string, n: nat)
    requires n >= 1 && CleanUpTo(row, n) && Tail(tail) && line == PrintIn(pre, row, tail)
    ensures FieldFrom(line, |pre| + 1, n) == if n > |row| then None else Some(Place(|pre|, row, n - 1))
  {
    PrintedAreFound(line, pre, row, tail, n);
    FoundFromStart(line, |pre|, row, n);
  }

  lemma FoundFromStart(line: string, from: nat, row: Row, n: nat)
    requires row != [] && n >= 1 && CleanUpTo(row, n) && AreFound(line, from, row, 0, n)
    ensures FieldFrom(line, from + 1, n) == if n > |row| then None else Some(Place(from, row, n - 1))
  {
    FoundFrom(line, from, row, 0, n);
  }

  lemma PrintedAreFound(line: string, pre: string, row: Row, tail: string, n: nat)
    requires n >= 1 && CleanUpTo(row, n) && Tail(tail) && line == PrintIn(pre, row, tail)
    ensures AreFound(line, |pre|, row, 0, n)
  {
    forall k | 0 <= k < |row| && k < n ensures IsFound(line, |pre|, row, k) { FieldIsFound(line, pre, row, tail, k); }
  }

  function LineOf(t: string, row: Row, end: string): string { Print(t, row) + end }

  lemma LineIsPrinted(t: string, row: Row, end: string)
    ensures LineOf(t, row, end) == PrintIn(Head(t), row, ");" + end)
  {
  }

  /** The search for the first field begins at it. */
  lemma LineFirst(line: string, t: string, row: Row, end: string)
    requires row != [] && row[0].Some? && TableName(t) && line == LineOf(t, row, end)
    ensures FirstField(line) == |Head(t)| + 1
  {
    var f, c := row[0].value, "'" + After(row[1..], ");" + end);
    LineIsPrinted(t, row, end);
    FieldAt(Head(t), row, ");" + end, 0, f);
    Associate(Head(t), "'", f, c);
    FirstFieldAt(line, t, f + c);
  }

  lemma LineName(line: string, t: string, row: Row, end: string)
    requires TableName(t) && line == LineOf(t, row, end)
    ensures GetTableName(line) == t
  {
    var rest := PrintFields(row) + (");" + end);
    LineIsPrinted(t, row, end);
    assert line == Head(t) + rest;
    TableNameAt(line, t, rest);
  }

  lemma TableNameAt(line: string, t: string, rest: string)
    requires TableName(t) && line == Head(t) + rest
    ensures GetTableName(line) == t
  {
    var e := 13 + |t|;
    assert Head(t)[13..e] == t && Head(t)[e] == '`';
    assert line[13..e] == Head(t)[13..e] && line[e] == '`';
    FindCharAt(line, '`', 13, e);
  }

  lemma GetAt(line: string, n: int, found: Option<(nat, nat)>)
    requires FindNth(line, n) == found
    ensures found == None ==> GetNth(line, n) == ""
    ensures found.Some? ==> found.value.0 <= found.value.1 < |line|
                            && GetNth(line, n) == line[found.value.0..found.value.1]
  {
    FieldFromOrdered(line, FirstField(line), n);
  }

  lemma ChangeAt(line: string, n: int, found: Option<(nat, nat)>, w: string, insert: bool, nonzero: bool)
    requires FindNth(line, n) == found
    ensures found == None ==> ChangeNth(line, n, w, insert, nonzero) == None
    ensures found.Some? ==>
              && found.value.0 <= found.value.1 < |line|
              && var (s, e) := found.value;
                 ChangeNth(line, n, w, insert, nonzero) ==
                 Some(if nonzero && line[s..e] == "0" then line
                      else if insert then line[..s] + w + line[s..] else line[..s] + w + line[e..])
  {
    FieldFromOrdered(line, FirstField(line), n);
  }

  /** The text in column n of a row, and none where the column is null or missing. */
  function Column(row: Row, n: nat): string { if 1 <= n <= |row| && row[n - 1].Some? then row[n - 1].value else "" }

  /** What is found in a printed line. */
  lemma LineFinds(line: string, t: string, row: Row, end: string, n: nat, w: string)
    requires n >= 1 && CleanUpTo(row, n) && TableName(t) && LineEnd(end) && line == LineOf(t, row, end)
    ensures if n > |row| then FindNth(line, n) == None
            else Hit(line, FindNth(line, n), Column(row, n), w, LineOf(t, row[n - 1 := Some(w)], end),
                     LineOf(t, row[n - 1 := Some(w + Column(row, n))], end))
  {
    LineFirst(line, t, row, end);
    LineIsPrinted(t, row, end);
    PrintedIsFound(line, Head(t), row, ");" + end, n);
    if n <= |row| { LineHits(line, t, row, end, n, Column(row, n), w); }
  }

  lemma LineHits(line: string, t: string, row: Row, end: string, n: nat, f: string, w: string)
    requires 1 <= n <= |row| && row[n - 1] == Some(f) && line == LineOf(t, row, end)
    ensures Hit(line, Some(Place(|Head(t)|, row, n - 1)), f, w, LineOf(t, row[n - 1 := Some(w)], end),
                LineOf(t, row[n - 1 := Some(w + f)], end))
  {
    LineIsPrinted(t, row, end);
    PlaceIsHit(line, Head(t), row, ");" + end, n - 1, f, w);
    LineIsPrinted(t, row[n - 1 := Some(w)], end);
    LineIsPrinted(t, row[n - 1 := Some(w + f)], end);
  }

  lemma LineNeverHangs(line: string, t: string, row: Row, end: string)
    requires CleanUpTo(row, 1) && TableName(t) && LineEnd(end) && line == LineOf(t, row, end)
    ensures !Hangs(line)
  {
    LineFirst(line, t, row, end);
    LineIsPrinted(t, row, end);
    FieldIsFound(line, Head(t), row, ");" + end, 0);
    assert QuoteFrom(line, FirstField(line)).Some?;
  }

  lemma GetFinds(line: string, t: string, row: Row, end: string, n: nat)
    requires n >= 1 && CleanUpTo(row, n) && TableName(t) && LineEnd(end) && line == LineOf(t, row, end)
    ensures GetNth(line, n) == Column(row, n)
  {
    LineFinds(line, t, row, end, n, "");
    GetAt(line, n, FindNth(line, n));
  }

  lemma ChangeFinds(line: string, t: string, row: Row, end: string, n: nat, w: string, nonzero: bool)
    requires n >= 1 && CleanUpTo(row, n) && TableName(t) && LineEnd(end) && line == LineOf(t, row, end)
    ensures ChangeNth(line, n, w, false, nonzero)
         == if n > |row| then None
            else if nonzero && Column(row, n) == "0" then Some(line)
            else Some(LineOf(t, row[n - 1 := Some(w)], end))
    ensures ChangeNth(line, n, w, true, false)
         == if n > |row| then None else Some(LineOf(t, row[n - 1 := Some(w + Column(row, n))], end))
  {
    LineFinds(line, t, row, end, n, w);
    ChangeAt(line, n, FindNth(line, n), w, false, nonzero);
    ChangeAt(line, n, FindNth(line, n), w, true, false);
  }

  /** Printing a row and parsing it back agree on each column before which, and in which, the row is clean. */
  lemma PrintThenFind(t: string, row: Row, end: string, n: nat, w: string, nonzero: bool)
    requires n >= 1 && CleanUpTo(row, n) && TableName(t) && LineEnd(end)
    ensures GetTableName(Print(t, row) + end) == t && !Hangs(Print(t, row) + end)
    ensures GetNth(Print(t, row) + end, n) == if n <= |row| then row[n - 1].value else ""
    ensures ChangeNth(Print(t, row) + end, n, w, false, nonzero)
         == if n > |row| then None
            else if nonzero && row[n - 1] == Some("0") then Some(Print(t, row) + end)
            else Some(Print(t, row[n - 1 := Some(w)]) + end)
    ensures ChangeNth(Print(t, row) + end, n, w, true, false)
         == if n > |row| then None else Some(Print(t, row[n - 1 := Some(w + row[n - 1].value)]) + end)
  {
    var line := LineOf(t, row, end);
    LineName(line, t, row, end);
    LineNeverHangs(line, t, row, end);
    GetFinds(line, t, row, end, n);
    ChangeFinds(line, t, row, end, n, w, nonzero);
  }

  /** Whatever the line, what is found is clean. */
  lemma FoundIsClean(line: string, n: int)
    ensures Clean(GetNth(line, n))
  {
    FieldFromOrdered(line, FirstField(line), n);
    if FindNth(line, n).Some? { CutIsClean(line, FindNth(line, n).value.0, FindNth(line, n).value.1); }
  }

  lemma CutIsClean(line: string, s: nat, e: nat)
    requires s <= e < |line| && '\'' !in line[s..e] && !Escaped(line, e)
    ensures Clean(line[s..e])
  {
    if s < e { assert line[s..e][e - s - 1] == line[e - 1]; }
  }

  /** So printing and parsing agree on the first n fields exactly when these are clean texts. */
  lemma FieldsAreFoundExactly(t: string, row: Row, end: string, n: nat)
    requires n >= 1 && TableName(t) && LineEnd(end) && row != []
    ensures var line := Print(t, row) + end;
            CleanUpTo(row, n)
            <==> !Hangs(line) && forall k :: 1 <= k <= n && k <= |row| ==> row[k - 1] == Some(GetNth(line, k))
  {
    var line := LineOf(t, row, end);
    if CleanUpTo(row, n) {
      LineNeverHangs(line, t, row, end);
      forall k | 1 <= k <= n && k <= |row| ensures row[k - 1] == Some(GetNth(line, k)) {
        GetFinds(line, t, row, end, k);
      }
    } else {
      var i :| 0 <= i < |row| && i < n && !CleanField(row[i]);
      FoundIsClean(line, i + 1);
    }
  }

  // ----- Escaping -----

  /** What the database makes of a character in a text to be quoted. */
  function EscapeChar(c: char): string {
    if c == '\'' then "\\'" else if c == '\\' then "\\\\" else if c == '"' then "\\\""
    else if c == '\n' then "\\n" else if c == '\r' then "\\r" else if c == '\0' then "\\0"
    else if c == 26 as char then "\\Z" else [c]
  }

  function Escape(s: string): string {
    if s == "" then "" else Escape(s[..|s| - 1]) + EscapeChar(s[|s| - 1])
  }

  /** An escaped text is clean exactly when the text has no quote and does not end with a backslash. */
  lemma {:induction false} EscapedIsClean(s: string)
    ensures Clean(Escape(s)) <==> Clean(s)
    ensures '\'' in Escape(s) <==> '\'' in s
    decreases |s|
  {
    if s != "" {
      var rest, c := s[..|s| - 1], s[|s| - 1];
      EscapedIsClean(rest);
      assert s == rest + [c];
      assert '\'' in EscapeChar(c) <==> c == '\'';
      assert EscapeChar(c)[|EscapeChar(c)| - 1] == '\\' <==> c == '\\';
      assert Escape(s)[|Escape(s)| - 1] == EscapeChar(c)[|EscapeChar(c)| - 1];
    }
  }

  /** What the database makes of a quoted text it is given. */
  function Unescape(s: string): string {
    if s == "" then ""
    else if s[0] == '\\' && |s| > 1 then [Unescaped(s[1])] + Unescape(s[2..])
    else [s[0]] + Unescape(s[1..])
  }

  function Unescaped(c: char): char {
    if c == 'n' then '\n' else if c == 'r' then '\r' else if c == '0' then '\0' else if c == 'Z' then 26 as char else c
  }

  lemma {:induction false} EscapeCons(c: char, s: string)
    ensures Escape([c] + s) == EscapeChar(c) + Escape(s)
    decreases |s|
  {
    if s == "" {
      NothingBehind(c);
      assert [c] + s == [c];
    } else {
      var rest, last := s[..|s| - 1], s[|s| - 1];
      assert s == rest + [last];
      EscapeCons(c, rest);
      OneMoreBehind(c, rest, last);
    }
  }

  lemma NothingBehind(c: char)
    ensures Escape([c]) == EscapeChar(c) + Escape("")
  {
    EscapeSnoc("", c);
    assert "" + [c] == [c];
  }

  lemma OneMoreBehind(c: char, rest: string, last: char)
    requires Escape([c] + rest) == EscapeChar(c) + Escape(rest)
    ensures Escape([c] + (rest + [last])) == EscapeChar(c) + Escape(rest + [last])
  {
    EscapeSnoc([c] + rest, last);
    EscapeSnoc(rest, last);
    Gather([c], rest, [last]);
    Gather(EscapeChar(c), Escape(rest), EscapeChar(last));
  }

  lemma EscapeSnoc(s: string, c: char)
    ensures Escape(s + [c]) == Escape(s) + EscapeChar(c)
  {
    assert (s + [c])[..|s|] == s;
  }

  lemma Gather(a: string, b: string, c: string)
    ensures a + b + c == a + (b + c)
  {
  }

  lemma UnescapeOne(c: char, t: string)
    ensures Unescape(EscapeChar(c) + t) == [c] + Unescape(t)
  {
    var e := EscapeChar(c);
    if |e| == 2 { assert (e + t)[2..] == t; } else { assert (e + t)[1..] == t; }
  }

  lemma NoLineEnd(c: char, t: string)
    requires '\n' !in t && '\0' !in t
    ensures '\n' !in EscapeChar(c) + t && '\0' !in EscapeChar(c) + t
  {
  }

  /** An escaped text comes back as it was, and stays on its line. */
  lemma {:induction false} EscapedReadsBack(s: string)
    ensures Unescape(Escape(s)) == s && '\n' !in Escape(s) && '\0' !in Escape(s)
    decreases |s|
  {
    if s != "" {
      var c, rest := s[0], s[1..];
      EscapedReadsBack(rest);
      assert s == [c] + rest;
      EscapeCons(c, rest);
      UnescapeOne(c, Escape(rest));
      NoLineEnd(c, Escape(rest));
    }
  }

  function EscapeField(field: Option<string>): Option<string> {
    match field case None => None case Some(f) => Some(Escape(f))
  }

  /** The fields of a query result as they are printed. */
  function EscapeRow(fields: seq<Option<string>>): Row {
    seq(|fields|, i requires 0 <= i < |fields| => EscapeField(fields[i]))
  }

  /** What stands before the i-th field. */
  function Separator(i: int): string { if i == 0 then "" else ", " }

  /** Prints a row of a query result; a field may be null. */
  method CreateDumpString(tableName: string, fields: seq<Option<string>>) returns (line: string)
    ensures line == Print(tableName, EscapeRow(fields))
  {
    line := Head(tableName);
    ghost var row := EscapeRow(fields);
    for i := 0 to |fields|
      invariant line == Head(tableName) + PrintFields(row[..i])
    {
      PrintSnoc(row, i);
      Associate(Head(tableName), PrintFields(row[..i]), Separator(i), FieldText(row[i]));
      if i != 0 { line := line + ", "; }
      line := line + if fields[i] == None then "NULL" else Quoted(Escape(fields[i].value));
    }
    assert row[..|fields|] == row;
    line := line + ");";
  }

  lemma {:induction false} PrintSnoc(row: Row, i: nat)
    requires i < |row|
    ensures PrintFields(row[..i + 1]) == PrintFields(row[..i]) + Separator(i) + FieldText(row[i])
    decreases i
  {
    if i > 0 {
      PrintSnoc(row[1..], i - 1);
      assert row[..i + 1][1..] == row[1..][..i];
      assert row[..i][1..] == row[1..][..i - 1];
    }
  }

  /** Escaping leaves a row clean as far as it was. */
  lemma EscapedRowIsClean(fields: seq<Option<string>>, n: nat)
    ensures CleanUpTo(EscapeRow(fields), n) <==> CleanUpTo(fields, n)
  {
    forall i | 0 <= i < |fields| ensures CleanField(EscapeRow(fields)[i]) <==> CleanField(fields[i]) {
      if fields[i].Some? { EscapedIsClean(fields[i].value); }
    }
  }

  // ----- Numbers as text -----

  function Digit(d: nat): char
    requires d < 10
  {
    ('0' as int + d) as char
  }

  function DigitValue(c: char): Option<nat> {
    if '0' <= c <= '9' then Some((c as int - '0' as int)) else None
  }

  function ToString(n: nat): string {
    if n < 10 then [Digit(n)] else ToString(n / 10) + [Digit(n % 10)]
  }

  /** Value of the leading digits; `start` is the value of the digits before. */
  function AtoiFrom(s: string, start: nat): nat
    decreases |s|
  {
    if s == "" then start
    else match DigitValue(s[0])
      case None => start
      case Some(d) => AtoiFrom(s[1..], 10 * start + d)
  }

  function Atoi(s: string): nat { AtoiFrom(s, 0) }

  predicate Digits(s: string) { forall i :: 0 <= i < |s| ==> '0' <= s[i] <= '9' }

  lemma {:induction false} AtoiSnoc(s: string, c: char, start: nat)
    requires Digits(s) && '0' <= c <= '9'
    ensures AtoiFrom(s + [c], start) == 10 * AtoiFrom(s, start) + (c as int - '0' as int)
    decreases |s|
  {
    if s != [] {
      assert (s + [c])[1..] == s[1..] + [c];
      AtoiSnoc(s[1..], c, 10 * start + (s[0] as int - '0' as int));
    }
  }

  lemma {:induction false} AtoiToString(n: nat)
    ensures Digits(ToString(n)) && ToString(n) != "" && Clean(ToString(n))
    ensures Atoi(ToString(n)) == n
  {
    if n < 10 {
      assert ToString(n) == [Digit(n)] && ToString(n)[1..] == [];
      assert AtoiFrom(ToString(n), 0) == AtoiFrom("", 10 * 0 + n);
    } else {
      AtoiToString(n / 10);
      AtoiSnoc(ToString(n / 10), Digit(n % 10), 0);
    }
  }
}
