/** Rows with nulls: which search finds which field of a printed line. */
module DumpNulls {

  import opened Wrappers
  import opened DumpText

  predicate CleanOrNull(row: Row) { forall i :: 0 <= i < |row| && row[i].Some? ==> Clean(row[i].value) }

  /** The field whose text the n-th search finds where it was printed, for searches that go on from the i-th field:
      either at its beginning, or anywhere before its opening quote. A null has no quotes, so the search in progress
      ends at the opening quote of the next text, and the one after it begins three characters into that text. */
  function Reached(row: Row, i: nat, atField: bool, n: nat): (r: Option<nat>)
    requires i <= |row| && n >= 1
    ensures r.Some? ==> i <= r.value < |row| && row[r.value].Some?
    decreases |row| - i
  {
    if i == |row| then None
    else match row[i]
      case None => Reached(row, i + 1, false, n)
      case Some(f) =>
        if atField then (if n == 1 then Some(i) else Reached(row, i + 1, true, n - 1))
        else if n == 1 then None
        else if |f| < 3 then Reached(row, i + 1, false, n - 1)
        else if n == 2 then None
        else Reached(row, i + 1, true, n - 2)
  }

  predicate NoQuotes(line: string, from: nat, to: nat) {
    forall k :: from <= k < to && k < |line| ==> line[k] != '\''
  }

  /** The place of the opening quote of the i-th field, or the end of the line behind the last one. */
  function Edge(line: string, from: nat, row: Row, i: nat): nat
    requires i <= |row|
  {
    if i == |row| then |line| else Start(from, row, i) - 1
  }

  /** The quotes in a line around the i-th field are its own: a text is bounded by them, a null has none. */
  ghost predicate Laid(line: string, from: nat, row: Row, i: nat)
    requires i < |row|
  {
    match row[i]
    case None => NoQuotes(line, Start(from, row, i) - 1, Edge(line, from, row, i + 1))
    case Some(f) => LaidText(line, Start(from, row, i), |f|, Edge(line, from, row, i + 1))
  }

  /** A text of a length that begins at s, with no quote between it and the next edge. */
  ghost predicate LaidText(line: string, s: nat, length: nat, edge: nat) {
    && 1 <= s <= |line| && line[s - 1] == '\'' && !Escaped(line, s - 1)
    && (forall x :: s <= x <= s + length ==> QuoteFrom(line, x) == Some((x, s + length)))
    && NoQuotes(line, s + length + 1, edge)
  }

  lemma {:induction false} QuoteFromInside(line: string, x: nat, e: nat)
    requires x <= e < |line| && line[e] == '\'' && !Escaped(line, e) && NoQuotes(line, x, e)
    ensures QuoteFrom(line, x) == Some((x, e))
  {
    FindCharAt(line, '\'', x, e);
  }

  lemma {:induction false} NoMoreQuotes(line: string, x: nat, n: nat)
    requires NoQuotes(line, x, |line|)
    ensures FieldFrom(line, x, n) == None
  {
    FindCharIsFirst(line, '\'', x);
    assert FindChar(line, '\'', x) == None;
  }

  lemma TextIsLaid(line: string, a: string, f: string, c: string, m: nat)
    requires Clean(f) && line == (a + "'") + f + ("'" + c) && (a != "" ==> a[|a| - 1] != '\\') && NoQuotes(c, 0, m)
    ensures LaidText(line, |a| + 1, |f|, |a| + |f| + 2 + m)
  {
    var s, e := |a| + 1, |a| + 1 + |f|;
    assert line[s - 1] == '\'' && line[e] == '\'';
    assert forall k :: s <= k < e ==> line[k] == f[k - s];
    assert line[e - 1] == if f == "" then '\'' else f[|f| - 1];
    forall x | s <= x <= s + |f| ensures QuoteFrom(line, x) == Some((x, e)) { QuoteFromInside(line, x, e); }
    assert forall k :: e < k < |line| ==> line[k] == c[k - e - 1];
  }

  lemma NullIsLaid(line: string, a: string, c: string, m: nat)
    requires line == a + "NULL" + c && NoQuotes(c, 0, m)
    ensures NoQuotes(line, |a|, |a| + 4 + m)
  {
    forall k | |a| <= k < |a| + 4 + m && k < |line| ensures line[k] != '\'' {
      if k < |a| + 4 { assert line[k] == "NULL"[k - |a|]; } else { assert line[k] == c[k - |a| - 4]; }
    }
  }

  lemma PrefixIsPlain(pre: string, row: Row, i: nat)
    requires i <= |row| && (pre != "" ==> pre[|pre| - 1] != '\\')
    ensures var a := Prefix(pre, row, i); a != "" ==> a[|a| - 1] != '\\'
  {
    if i > 0 {
      var a := Behind(Prefix(pre, row, i - 1), row[i - 1]);
      assert a[|a| - 1] == ", "[1];
    }
  }

  /** What stands behind a field: the next one, or the end of the line. */
  lemma AfterIsPlain(rest: Row, tail: string)
    requires Tail(tail)
    ensures var c := After(rest, tail);
            if rest == [] then |c| <= 3 && NoQuotes(c, 0, |c|) else |c| >= 2 && NoQuotes(c, 0, 2)
  {
    CommaIsPlain(PrintFields(rest), tail);
  }

  lemma CommaIsPlain(fields: string, tail: string)
    ensures NoQuotes(", " + fields + tail, 0, 2)
  {
    var c := ", " + fields + tail;
    assert c[0] == ',' && c[1] == ' ';
  }

  lemma CutAtField(line: string, pre: string, row: Row, tail: string, i: nat)
    requires i < |row| && line == PrintIn(pre, row, tail)
    ensures line == Prefix(pre, row, i) + FieldText(row[i]) + After(row[i + 1..], tail)
  {
    SplitAt(pre, row, tail, i);
    assert row[i..] == [row[i]] + row[i + 1..];
    PrintCons(Prefix(pre, row, i), row[i], row[i + 1..], tail);
  }

  lemma FieldIsLaid(line: string, pre: string, row: Row, tail: string, i: nat)
    requires i < |row| && CleanOrNull(row) && Tail(tail) && line == PrintIn(pre, row, tail)
    requires pre != "" ==> pre[|pre| - 1] != '\\'
    ensures Laid(line, |pre|, row, i)
  {
    CutAtField(line, pre, row, tail, i);
    PrefixIsPlain(pre, row, i);
    PrefixEnds(pre, row, i);
    AfterIsPlain(row[i + 1..], tail);
    CutIsLaid(line, Prefix(pre, row, i), After(row[i + 1..], tail), |pre|, row, i);
  }

  lemma CutIsLaid(line: string, a: string, c: string, from: nat, row: Row, i: nat)
    requires i < |row| && CleanOrNull(row) && line == a + FieldText(row[i]) + c && Start(from, row, i) == |a| + 1
    requires a != "" ==> a[|a| - 1] != '\\'
    requires if i + 1 == |row| then NoQuotes(c, 0, |c|) else |c| >= 2 && NoQuotes(c, 0, 2)
    ensures Laid(line, from, row, i)
  {
    var m := if i + 1 == |row| then |c| else 2;
    match row[i]
    case None => NullIsLaid(line, a, c, m);
    case Some(f) =>
      Regroup(a, "'", f, "'", c);
      TextIsLaid(line, a, f, c, m);
  }

  // ----- Which search finds which field -----

  ghost predicate AllLaid(line: string, from: nat, row: Row) {
    forall i :: 0 <= i < |row| ==> Laid(line, from, row, i)
  }

  /** The text of the k-th field begins at a place, or in front of it. */
  ghost predicate BeginsAt(from: nat, row: Row, k: nat, at: nat) {
    k < |row| && row[k].Some? && Start(from, row, k) == at
  }

  ghost predicate BeginsBefore(from: nat, row: Row, k: nat, at: nat) {
    k < |row| && row[k].Some? ==> Start(from, row, k) < at
  }

  /** All texts before the i-th field begin before a place. */
  ghost predicate Passed(from: nat, row: Row, i: nat, at: nat) {
    forall k {:trigger BeginsBefore(from, row, k, at)} :: 0 <= k < i ==> BeginsBefore(from, row, k, at)
  }

  lemma PassedFurther(from: nat, row: Row, i: nat, at: nat, at': nat)
    requires Passed(from, row, i, at) && at <= at'
    ensures Passed(from, row, i, at')
  {
    forall k | 0 <= k < i ensures BeginsBefore(from, row, k, at') { assert BeginsBefore(from, row, k, at); }
  }

  lemma PassedOn(from: nat, row: Row, i: nat, at: nat, at': nat)
    requires Passed(from, row, i, at) && at <= at' && BeginsBefore(from, row, i, at')
    ensures Passed(from, row, i + 1, at')
  {
    PassedFurther(from, row, i, at, at');
  }

  /** Where a search stands before the i-th field: at its beginning, or anywhere before its edge. */
  ghost predicate Standing(line: string, from: nat, row: Row, i: nat, at: nat, atField: bool)
    requires i <= |row|
  {
    && Passed(from, row, i, at)
    && if atField && i < |row| then at == Start(from, row, i)
       else NoQuotes(line, at, Edge(line, from, row, i)) && (i < |row| ==> at <= Edge(line, from, row, i))
  }

  ghost predicate BeginsNowhere(from: nat, row: Row, at: nat) {
    forall k {:trigger BeginsAt(from, row, k, at)} :: 0 <= k < |row| ==> !BeginsAt(from, row, k, at)
  }

  /** A place that is the one where the k-th field was printed, or where none was. */
  ghost predicate Comes(found: Option<(nat, nat)>, from: nat, row: Row, k: Option<nat>) {
    match k
    case Some(k) => k < |row| && row[k].Some? && found == Some(Place(from, row, k))
    case None => found.Some? ==> BeginsNowhere(from, row, found.value.0)
  }

  lemma {:induction false} StartsRise(from: nat, row: Row, i: nat, k: nat)
    requires i <= k <= |row|
    ensures Start(from, row, i) + 4 * (k - i) <= Start(from, row, k)
  {
    if i < k { StartsRise(from, row, i, k - 1); }
  }

  /** A search that begins before the i-th field, behind the beginnings of those before, begins at none. */
  lemma BetweenFields(from: nat, row: Row, i: nat, at: nat)
    requires i <= |row| && Passed(from, row, i, at) && (i < |row| ==> at < Start(from, row, i))
    ensures BeginsNowhere(from, row, at)
  {
    forall k | 0 <= k < |row| ensures !BeginsAt(from, row, k, at) {
      if k < i { assert BeginsBefore(from, row, k, at); } else { StartsRise(from, row, i, k); }
    }
  }

  lemma {:induction false} SearchReaches(line: string, from: nat, row: Row, i: nat, at: nat, atField: bool, n: nat,
                                         found: Option<(nat, nat)>, reached: Option<nat>)
    requires AllLaid(line, from, row) && i <= |row| && n >= 1 && Standing(line, from, row, i, at, atField)
    requires found == FieldFrom(line, at, n) && reached == Reached(row, i, atField, n)
    ensures Comes(found, from, row, reached)
    decreases |row| - i
  {
    if i == |row| {
      NoMoreQuotes(line, at, n);
    } else if row[i] == None {
      PastNull(line, from, row, i, at, atField);
      SearchReaches(line, from, row, i + 1, at, false, n, found, reached);
    } else if atField {
      FromField(line, from, row, i, at, n);
      if n > 1 {
        SearchReaches(line, from, row, i + 1, at + |row[i].value| + 4, true, n - 1, found, reached);
      }
    } else {
      SearchReachesInto(line, from, row, i, at, n, found, reached);
    }
  }

  lemma {:induction false} SearchReachesInto(line: string, from: nat, row: Row, i: nat, at: nat, n: nat,
                                             found: Option<(nat, nat)>, reached: Option<nat>)
    requires AllLaid(line, from, row) && i < |row| && row[i].Some? && n >= 1
    requires Standing(line, from, row, i, at, false)
    requires found == FieldFrom(line, at, n) && reached == Reached(row, i, false, n)
    ensures Comes(found, from, row, reached)
    decreases |row| - i, 1
  {
    var at' := Start(from, row, i) + 3;
    FromOutside(line, from, row, i, at, n);
    if n > 1 && |row[i].value| < 3 {
      SearchReaches(line, from, row, i + 1, at', false, n - 1, found, reached);
    } else if n > 1 {
      SearchReachesBehind(line, from, row, i, at', n - 1, found, reached);
    }
  }

  lemma {:induction false} SearchReachesBehind(line: string, from: nat, row: Row, i: nat, at: nat, n: nat,
                                               found: Option<(nat, nat)>, reached: Option<nat>)
    requires AllLaid(line, from, row) && i < |row| && row[i].Some? && |row[i].value| >= 3 && n >= 1
    requires at == Start(from, row, i) + 3 && Passed(from, row, i + 1, at) && found == FieldFrom(line, at, n)
    requires reached == if n == 1 then None else Reached(row, i + 1, true, n - 1)
    ensures Comes(found, from, row, reached)
    decreases |row| - i, 0
  {
    FromInside(line, from, row, i, at, n);
    if n > 1 { SearchReaches(line, from, row, i + 1, at + |row[i].value| + 1, true, n - 1, found, reached); }
  }

  lemma PastNull(line: string, from: nat, row: Row, i: nat, at: nat, atField: bool)
    requires i < |row| && row[i] == None && Laid(line, from, row, i) && Standing(line, from, row, i, at, atField)
    ensures Standing(line, from, row, i + 1, at, false)
  {
    PassedOn(from, row, i, at, at);
  }

  /** From its beginning a text is found, and the next search stands at the beginning of the next field. */
  lemma FromField(line: string, from: nat, row: Row, i: nat, at: nat, n: nat)
    requires i < |row| && row[i].Some? && Laid(line, from, row, i) && Standing(line, from, row, i, at, true) && n >= 1
    ensures var next := at + |row[i].value| + 4;
            Standing(line, from, row, i + 1, next, true)
            && FieldFrom(line, at, n) == if n == 1 then Some(Place(from, row, i)) else FieldFrom(line, next, n - 1)
  {
    var e := at + |row[i].value|;
    PassedOn(from, row, i, at, e + 4);
    assert QuoteFrom(line, at) == Some((at, e));
    FieldFromNext(line, at, n, at, e);
  }

  /** From before a text the search ends at its opening quote. */
  lemma FromOutside(line: string, from: nat, row: Row, i: nat, at: nat, n: nat)
    requires i < |row| && row[i].Some? && Laid(line, from, row, i) && Standing(line, from, row, i, at, false) && n >= 1
    ensures var next := Start(from, row, i) + 3;
            && Passed(from, row, i + 1, next)
            && (n == 1 ==> Comes(FieldFrom(line, at, n), from, row, None))
            && (n > 1 ==> FieldFrom(line, at, n) == FieldFrom(line, next, n - 1))
            && (|row[i].value| < 3 ==> Standing(line, from, row, i + 1, next, false))
  {
    var e := Start(from, row, i) - 1;
    PassedOn(from, row, i, at, e + 4);
    QuoteFromInside(line, at, e);
    FieldFromNext(line, at, n, at, e);
    BetweenFields(from, row, i, at);
  }

  /** And the one after it begins three characters into the text. */
  lemma FromInside(line: string, from: nat, row: Row, i: nat, at: nat, n: nat)
    requires i < |row| && row[i].Some? && |row[i].value| >= 3 && Laid(line, from, row, i) && n >= 1
    requires at == Start(from, row, i) + 3 && Passed(from, row, i + 1, at)
    ensures var next := at + |row[i].value| + 1;
            && Standing(line, from, row, i + 1, next, true)
            && (n == 1 ==> Comes(FieldFrom(line, at, n), from, row, None))
            && (n > 1 ==> FieldFrom(line, at, n) == FieldFrom(line, next, n - 1))
  {
    var e := Start(from, row, i) + |row[i].value|;
    PassedFurther(from, row, i + 1, at, e + 4);
    assert QuoteFrom(line, at) == Some((at, e));
    FieldFromNext(line, at, n, at, e);
    BetweenFields(from, row, i + 1, at);
  }

  lemma PlacesDiffer(from: nat, row: Row, i: nat, k: nat)
    requires i < |row| && k < |row| && row[i].Some? && row[k].Some? && Place(from, row, i) == Place(from, row, k)
    ensures i == k
  {
    if i < k { StartsRise(from, row, i, k); } else { StartsRise(from, row, k, i); }
  }

  lemma LineIsLaid(line: string, t: string, row: Row, end: string)
    requires CleanOrNull(row) && LineEnd(end) && line == LineOf(t, row, end)
    ensures AllLaid(line, |Head(t)|, row)
  {
    LineIsPrinted(t, row, end);
    var pre := Head(t);
    assert pre[|pre| - 1] == '(';
    forall i | 0 <= i < |row| ensures Laid(line, |Head(t)|, row, i) {
      FieldIsLaid(line, pre, row, ");" + end, i);
    }
  }

  /** The n-th search finds the k-th field where it was printed. */
  predicate FindsField(line: string, from: nat, row: Row, n: nat, k: nat) {
    k < |row| && row[k].Some? && FindNth(line, n) == Some(Place(from, row, k))
  }

  /** It does exactly when that is the field it reaches. */
  ghost predicate Decides(line: string, from: nat, row: Row, n: nat, k: nat)
    requires n >= 1
  {
    FindsField(line, from, row, n, k) <==> Reached(row, 0, true, n) == Some(k)
  }

  /** So it is in every printed row of clean texts and nulls that begins with a text. */
  lemma NullsDecide(t: string, row: Row, end: string, n: nat, k: nat)
    requires TableName(t) && LineEnd(end) && CleanOrNull(row) && row != [] && row[0].Some? && n >= 1
    requires k < |row| && row[k].Some?
    ensures var line, place := Print(t, row) + end, Place(|Head(t)|, row, k);
            && place.0 <= place.1 <= |line| && line[place.0..place.1] == row[k].value
            && Decides(line, |Head(t)|, row, n, k)
  {
    var line := LineOf(t, row, end);
    LineIsPrinted(t, row, end);
    PlaceIsHit(line, Head(t), row, ");" + end, k, row[k].value, "");
    LineFirst(line, t, row, end);
    LineIsLaid(line, t, row, end);
    LaidDecides(line, |Head(t)|, row, n, k);
  }

  /** And where it reaches a field, its text is read and replaced there. */
  lemma ReachedIsChanged(t: string, row: Row, end: string, n: nat, k: nat, w: string)
    requires TableName(t) && LineEnd(end) && CleanOrNull(row) && row != [] && row[0].Some? && n >= 1
    requires Reached(row, 0, true, n) == Some(k)
    ensures GetNth(Print(t, row) + end, n) == row[k].value
    ensures ChangeNth(Print(t, row) + end, n, w, false, false) == Some(Print(t, row[k := Some(w)]) + end)
    ensures ChangeNth(Print(t, row) + end, n, w, true, false) == Some(Print(t, row[k := Some(w + row[k].value)]) + end)
  {
    assert FindNth(LineOf(t, row, end), n) == Some(Place(|Head(t)|, row, k)) by { NullsDecide(t, row, end, n, k); }
    PlaceIsChanged(LineOf(t, row, end), t, row, end, n, k, w);
  }

  lemma PlaceIsChanged(line: string, t: string, row: Row, end: string, n: nat, k: nat, w: string)
    requires k < |row| && row[k].Some? && line == LineOf(t, row, end)
    requires FindNth(line, n) == Some(Place(|Head(t)|, row, k))
    ensures GetNth(line, n) == row[k].value
    ensures ChangeNth(line, n, w, false, false) == Some(LineOf(t, row[k := Some(w)], end))
    ensures ChangeNth(line, n, w, true, false) == Some(LineOf(t, row[k := Some(w + row[k].value)], end))
  {
    LineIsPrinted(t, row, end);
    PlaceIsHit(line, Head(t), row, ");" + end, k, row[k].value, w);
    LineIsPrinted(t, row[k := Some(w)], end);
    LineIsPrinted(t, row[k := Some(w + row[k].value)], end);
    GetAt(line, n, FindNth(line, n));
    ChangeAt(line, n, FindNth(line, n), w, false, false);
    ChangeAt(line, n, FindNth(line, n), w, true, false);
  }

  ghost predicate AllDecided(line: string, from: nat, row: Row) {
    forall n: nat, k: nat :: n >= 1 ==> Decides(line, from, row, n, k)
  }

  lemma NullsDecideAll(t: string, row: Row, end: string)
    requires TableName(t) && LineEnd(end) && CleanOrNull(row) && row != [] && row[0].Some?
    ensures AllDecided(Print(t, row) + end, |Head(t)|, row)
  {
    var line, from := Print(t, row) + end, |Head(t)|;
    forall n: nat, k: nat | n >= 1 ensures Decides(line, from, row, n, k) {
      if k < |row| && row[k].Some? { NullsDecide(t, row, end, n, k); }
    }
  }

  lemma LaidDecides(line: string, from: nat, row: Row, n: nat, k: nat)
    requires AllLaid(line, from, row) && FirstField(line) == from + 1 && n >= 1 && k < |row| && row[k].Some?
    ensures Decides(line, from, row, n, k)
  {
    var reached := Reached(row, 0, true, n);
    SearchReaches(line, from, row, 0, from + 1, true, n, FindNth(line, n), reached);
    assert BeginsAt(from, row, k, Place(from, row, k).0);
    if reached.Some? && FindNth(line, n) == Some(Place(from, row, k)) { PlacesDiffer(from, row, reached.value, k); }
  }

  lemma {:induction false} ReachedBeforeNulls(row: Row, i: nat, k: nat, n: nat)
    requires i <= k <= |row| && n >= 1 && forall j :: i <= j < k ==> row[j].Some?
    ensures Reached(row, i, true, n) == if n <= k - i then Some(i + n - 1) else Reached(row, k, true, n - (k - i))
    decreases k - i
  {
    if i < k && n > 1 { ReachedBeforeNulls(row, i + 1, k, n - 1); }
  }

  /** Fields before the first null are found under their own numbers; the second one behind a single null is exactly
      when the text between them has three characters or more. */
  lemma BehindANull(t: string, row: Row, end: string, k: nat, n: nat)
    requires TableName(t) && LineEnd(end) && CleanOrNull(row) && 1 <= n <= k && k + 2 < |row|
    requires row[k] == None && row[k + 1].Some? && row[k + 2].Some? && forall j :: 0 <= j < k ==> row[j].Some?
    ensures var line := Print(t, row) + end;
            && FindsField(line, |Head(t)|, row, n, n - 1)
            && !FindsField(line, |Head(t)|, row, k + 2, k + 1)
            && (FindsField(line, |Head(t)|, row, k + 3, k + 2) <==> |row[k + 1].value| >= 3)
  {
    NullsDecideAll(t, row, end);
    DecidedAroundANull(Print(t, row) + end, |Head(t)|, row, k, n);
  }

  lemma DecidedAroundANull(line: string, from: nat, row: Row, k: nat, n: nat)
    requires 1 <= n <= k && k + 2 < |row| && row[k] == None && row[k + 1].Some? && row[k + 2].Some?
    requires forall j :: 0 <= j < k ==> row[j].Some?
    requires AllDecided(line, from, row)
    ensures FindsField(line, from, row, n, n - 1) && !FindsField(line, from, row, k + 2, k + 1)
    ensures FindsField(line, from, row, k + 3, k + 2) <==> |row[k + 1].value| >= 3
  {
    ReachedAroundANull(row, k, n);
    assert Decides(line, from, row, n, n - 1);
    assert Decides(line, from, row, k + 2, k + 1);
    assert Decides(line, from, row, k + 3, k + 2);
  }

  lemma ReachedAroundANull(row: Row, k: nat, n: nat)
    requires 1 <= n <= k && k + 2 < |row| && row[k] == None && row[k + 1].Some? && row[k + 2].Some?
    requires forall j :: 0 <= j < k ==> row[j].Some?
    ensures Reached(row, 0, true, n) == Some(n - 1) && Reached(row, 0, true, k + 2) == None
    ensures Reached(row, 0, true, k + 3) == if |row[k + 1].value| >= 3 then Some(k + 2) else None
  {
    ReachedBeforeNulls(row, 0, k, n);
    ReachedBeforeNulls(row, 0, k, k + 2);
    ReachedBeforeNulls(row, 0, k, k + 3);
    ReachedBehindANull(row, k);
  }

  lemma {:induction false} NothingAtOnce(row: Row, i: nat)
    requires i <= |row|
    ensures Reached(row, i, false, 1) == None
    decreases |row| - i
  {
    if i < |row| { NothingAtOnce(row, i + 1); }
  }

  lemma ReachedBehindANull(row: Row, k: nat)
    requires k + 2 < |row| && row[k] == None && row[k + 1].Some? && row[k + 2].Some?
    ensures Reached(row, k, true, 2) == None
    ensures Reached(row, k, true, 3) == if |row[k + 1].value| >= 3 then Some(k + 2) else None
  {
    assert Reached(row, k, true, 2) == Reached(row, k + 1, false, 2);
    assert Reached(row, k, true, 3) == Reached(row, k + 1, false, 3);
    if |row[k + 1].value| < 3 {
      assert Reached(row, k + 1, false, 2) == Reached(row, k + 2, false, 1);
      assert Reached(row, k + 1, false, 3) == Reached(row, k + 2, false, 2);
      NothingAtOnce(row, k + 3);
    } else {
      assert Reached(row, k + 1, false, 3) == Reached(row, k + 2, true, 1);
    }
  }
}
