/** Loading character dumps into another database: the ids of items, mails, texts and pets are renamed, line by
    line, in the text of the dump. */
module PlayerDump {

  import opened Wrappers
  import opened DumpText

  // ----- Renaming ids while loading -----

  datatype Which = Items | Mails | Texts

  /** Old id to new id, for each kind of id. */
  datatype Maps = Maps(items: map<nat, nat>, mails: map<nat, nat>, texts: map<nat, nat>) {
    function Get(w: Which): map<nat, nat> {
      match w case Items => items case Mails => mails case Texts => texts
    }

    function Put(w: Which, m: map<nat, nat>): Maps {
      match w case Items => this.(items := m) case Mails => this.(mails := m) case Texts => this.(texts := m)
    }
  }

  /** First unused id of each kind in the database that is loaded into. */
  datatype Next = Next(items: nat, mails: nat, texts: nat) {
    function Get(w: Which): nat {
      match w case Items => items case Mails => mails case Texts => texts
    }
  }

  /** A new id for an old one: the one it has, or the next free one. */
  function RegisterNewGuid(oldGuid: nat, m: map<nat, nat>, hi: nat): (r: map<nat, nat>)
    ensures oldGuid in r
  {
    if oldGuid in m then m else m[oldGuid := hi + |m|]
  }

  /** What comes of a load: it is done, the dump is broken, or a search in a line does not end. */
  datatype Tried<+T> = Done(value: T) | Broken | Hung

  /** What is done to a column: a fixed text, or a renamed id. */
  datatype Action = SetTo(col: nat, text: string) | Rename(col: nat, which: Which, nonzero: bool)

  /** One action on a row. A missing column is an error, except where zero would be left alone. */
  function ActRow(a: Action, row: Row, maps: Maps, next: Next): Option<(Row, Maps)>
    requires a.col >= 1
  {
    match a
    case SetTo(col, text) => if col > |row| then None else Some((row[col - 1 := Some(text)], maps))
    case Rename(col, w, nonzero) =>
      if col > |row| then (if nonzero then Some((row, maps)) else None)
      else
        var oldGuid := Atoi(Column(row, col));
        if nonzero && oldGuid == 0 then Some((row, maps))
        else
          var m := RegisterNewGuid(oldGuid, maps.Get(w), next.Get(w));
          Some((row[col - 1 := Some(ToString(m[oldGuid]))], maps.Put(w, m)))
  }

  /** The same on the text of the line, as it is done. */
  function ActText(a: Action, line: string, maps: Maps, next: Next): Tried<(string, Maps)> {
    if Hangs(line) then Hung
    else match a
      case SetTo(col, text) =>
        (match ChangeNth(line, col, text, false, false) case None => Broken case Some(l) => Done((l, maps)))
      case Rename(col, w, nonzero) =>
        var oldGuid := Atoi(GetNth(line, col));
        if nonzero && oldGuid == 0 then Done((line, maps))
        else
          var m := RegisterNewGuid(oldGuid, maps.Get(w), next.Get(w));
          match ChangeNth(line, col, ToString(m[oldGuid]), false, nonzero)
          case None => Broken
          case Some(l) => Done((l, maps.Put(w, m)))
  }

  /** An action that writes clean text into one of the first columns. */
  predicate CleanAction(a: Action, reach: nat) { 1 <= a.col <= reach && (a.SetTo? ==> Clean(a.text)) }

  lemma AtoiZero()
    ensures Atoi("0") == 0
  {
    assert "0"[1..] == "";
    assert AtoiFrom("0", 0) == AtoiFrom("", 0);
  }

  lemma NotZero(field: string)
    requires Atoi(field) != 0
    ensures field != "0"
  {
    if field == "0" { AtoiZero(); }
  }

  /** All that is needed of a printed line: each of the first columns is found and replaced in it. */
  ghost predicate Reads(line: string, row: Row, printer: Row -> string, reach: nat) {
    && line == printer(row) && !Hangs(line)
    && (forall n :: 1 <= n <= reach ==> GetNth(line, n) == Column(row, n))
    && (forall n, w, nonzero :: 1 <= n <= reach ==>
          ChangeNth(line, n, w, false, nonzero)
          == if n > |row| then None
             else if nonzero && Column(row, n) == "0" then Some(line) else Some(printer(row[n - 1 := Some(w)])))
  }

  /** A way of printing rows that can be read back in the first columns, whatever stands in the others. */
  ghost predicate Faithful(printer: Row -> string, reach: nat) {
    forall row :: CleanUpTo(row, reach) ==> Reads(printer(row), row, printer, reach)
  }

  function Printer(t: string, end: string): Row -> string { (row: Row) => LineOf(t, row, end) }

  lemma LinesAreFaithful(t: string, end: string, reach: nat)
    requires TableName(t) && LineEnd(end) && reach >= 1
    ensures Faithful(Printer(t, end), reach)
  {
    forall row | CleanUpTo(row, reach) ensures Reads(Printer(t, end)(row), row, Printer(t, end), reach) {
      PrintedReads(LineOf(t, row, end), t, row, end, reach);
    }
  }

  lemma PrintedReads(line: string, t: string, row: Row, end: string, reach: nat)
    requires CleanUpTo(row, reach) && reach >= 1 && TableName(t) && LineEnd(end) && line == LineOf(t, row, end)
    ensures Reads(line, row, Printer(t, end), reach)
  {
    LineNeverHangs(line, t, row, end);
    forall n | 1 <= n <= reach ensures GetNth(line, n) == Column(row, n) { GetFinds(line, t, row, end, n); }
    forall n, w, nonzero | 1 <= n <= reach
      ensures ChangeNth(line, n, w, false, nonzero)
           == if n > |row| then None
              else if nonzero && Column(row, n) == "0" then Some(line)
              else Some(Printer(t, end)(row[n - 1 := Some(w)]))
    {
      ChangeFinds(line, t, row, end, n, w, nonzero);
    }
  }

  /** On a printed row the text is treated as the row is. */
  ghost predicate Agrees(line: string, a: Action, printer: Row -> string, row: Row, reach: nat, maps: Maps,
                         next: Next)
    requires a.col >= 1
  {
    match ActRow(a, row, maps, next)
    case None => ActText(a, line, maps, next) == Broken
    case Some((row', maps')) =>
      CleanUpTo(row', reach) && |row'| == |row| && ActText(a, line, maps, next) == Done((printer(row'), maps'))
  }

  lemma CleanReplaced(row: Row, reach: nat, i: nat, text: string)
    requires CleanUpTo(row, reach) && i < |row| && Clean(text)
    ensures CleanUpTo(row[i := Some(text)], reach)
  {
  }

  lemma RenameAgrees(line: string, a: Action, printer: Row -> string, row: Row, reach: nat, maps: Maps, next: Next)
    requires CleanUpTo(row, reach) && Reads(line, row, printer, reach) && a.Rename? && 1 <= a.col <= reach
    ensures Agrees(line, a, printer, row, reach, maps, next)
  {
    var id := Atoi(Column(row, a.col));
    var newGuid := RegisterNewGuid(id, maps.Get(a.which), next.Get(a.which))[id];
    AtoiToString(newGuid);
    if a.col > |row| {
      assert id == 0;
    } else {
      CleanReplaced(row, reach, a.col - 1, ToString(newGuid));
      if id != 0 { NotZero(Column(row, a.col)); }
    }
  }

  lemma ActAgrees(line: string, a: Action, printer: Row -> string, row: Row, reach: nat, maps: Maps, next: Next)
    requires CleanUpTo(row, reach) && Reads(line, row, printer, reach) && CleanAction(a, reach)
    ensures Agrees(line, a, printer, row, reach, maps, next)
  {
    if a.Rename? {
      RenameAgrees(line, a, printer, row, reach, maps, next);
    } else if a.col <= |row| {
      CleanReplaced(row, reach, a.col - 1, a.text);
    }
  }

  function ActAllRow(acts: seq<Action>, row: Row, maps: Maps, next: Next): Option<(Row, Maps)>
    requires forall a :: a in acts ==> a.col >= 1
  {
    if acts == [] then Some((row, maps))
    else match ActAllRow(acts[..|acts| - 1], row, maps, next)
      case None => None
      case Some((r, m)) => ActRow(acts[|acts| - 1], r, m, next)
  }

  function ActAllText(acts: seq<Action>, line: string, maps: Maps, next: Next): Tried<(string, Maps)> {
    if acts == [] then Done((line, maps))
    else match ActAllText(acts[..|acts| - 1], line, maps, next)
      case Done((l, m)) => ActText(acts[|acts| - 1], l, m, next)
      case failed => failed
  }

  /** A text line and the row it prints, each after the same actions. */
  ghost predicate SameLine(text: Tried<(string, Maps)>, row: Option<(Row, Maps)>, printer: Row -> string,
                           columns: nat, reach: nat)
  {
    match row
    case None => text == Broken
    case Some((row', maps')) =>
      CleanUpTo(row', reach) && |row'| == columns && text == Done((printer(row'), maps'))
  }

  lemma {:induction false} ActAllAgrees(acts: seq<Action>, printer: Row -> string, row: Row, reach: nat, maps: Maps,
                                        next: Next)
    requires CleanUpTo(row, reach) && Faithful(printer, reach)
    requires forall a :: a in acts ==> a.col >= 1 && CleanAction(a, reach)
    ensures SameLine(ActAllText(acts, printer(row), maps, next), ActAllRow(acts, row, maps, next), printer, |row|,
                     reach)
    decreases |acts|
  {
    assert forall a :: a in acts ==> CleanAction(a, reach) && a.col >= 1;
    if acts != [] {
      ActAllAgrees(acts[..|acts| - 1], printer, row, reach, maps, next);
      match ActAllRow(acts[..|acts| - 1], row, maps, next)
      case None =>
      case Some((r, m)) => ActAgrees(printer(r), acts[|acts| - 1], printer, r, reach, m, next);
    }
  }

  // ----- What a renaming is -----

  ghost predicate OneToOne(m: map<nat, nat>, hi: nat) {
    && (forall x :: x in m ==> hi <= m[x] < hi + |m|)
    && (forall x, y :: x in m && y in m && m[x] == m[y] ==> x == y)
  }

  ghost predicate Onto(m: map<nat, nat>, hi: nat) {
    forall v :: hi <= v < hi + |m| ==> v in m.Values
  }

  /** One to one onto the ids from hi on. */
  ghost predicate Renaming(m: map<nat, nat>, hi: nat) { OneToOne(m, hi) && Onto(m, hi) }

  lemma RegisterSize(oldGuid: nat, m: map<nat, nat>, hi: nat)
    requires oldGuid !in m
    ensures |RegisterNewGuid(oldGuid, m, hi)| == |m| + 1
  {
    assert RegisterNewGuid(oldGuid, m, hi).Keys == m.Keys + {oldGuid};
  }

  lemma RegisterOnto(oldGuid: nat, m: map<nat, nat>, hi: nat)
    requires Onto(m, hi)
    ensures Onto(RegisterNewGuid(oldGuid, m, hi), hi)
  {
    var r := RegisterNewGuid(oldGuid, m, hi);
    if oldGuid !in m {
      RegisterSize(oldGuid, m, hi);
      forall v | hi <= v < hi + |r| ensures v in r.Values {
        if v < hi + |m| {
          assert v in m.Values;
          var x :| x in m && m[x] == v;
          assert r[x] == v;
        } else {
          assert r[oldGuid] == v;
        }
      }
    }
  }

  lemma RegisterOneToOne(oldGuid: nat, m: map<nat, nat>, hi: nat)
    requires OneToOne(m, hi)
    ensures OneToOne(RegisterNewGuid(oldGuid, m, hi), hi)
  {
    if oldGuid !in m { RegisterSize(oldGuid, m, hi); }
  }

  /** Registering an id keeps the renaming and every new id given before. */
  lemma RegisterRenames(oldGuid: nat, m: map<nat, nat>, hi: nat)
    requires Renaming(m, hi)
    ensures Renaming(RegisterNewGuid(oldGuid, m, hi), hi)
    ensures Grown(m, RegisterNewGuid(oldGuid, m, hi))
  {
    RegisterOnto(oldGuid, m, hi);
    RegisterOneToOne(oldGuid, m, hi);
  }

  ghost predicate AllRenamings(maps: Maps, next: Next) {
    Renaming(maps.items, next.items) && Renaming(maps.mails, next.mails) && Renaming(maps.texts, next.texts)
  }

  predicate Grown(m: map<nat, nat>, m': map<nat, nat>) { forall x :: x in m ==> x in m' && m'[x] == m[x] }

  predicate Extends(maps: Maps, maps': Maps) {
    Grown(maps.items, maps'.items) && Grown(maps.mails, maps'.mails) && Grown(maps.texts, maps'.texts)
  }

  lemma MapKept(maps: Maps, w: Which, m: map<nat, nat>, next: Next)
    requires AllRenamings(maps, next) && Renaming(m, next.Get(w)) && Grown(maps.Get(w), m)
    ensures AllRenamings(maps.Put(w, m), next) && Extends(maps, maps.Put(w, m))
  {
  }

  lemma ActKeeps(a: Action, row: Row, maps: Maps, next: Next)
    requires a.col >= 1 && AllRenamings(maps, next) && ActRow(a, row, maps, next).Some?
    ensures AllRenamings(ActRow(a, row, maps, next).value.1, next) && Extends(maps, ActRow(a, row, maps, next).value.1)
  {
    if a.Rename? && a.col <= |row| {
      var id, m, hi := Atoi(Column(row, a.col)), maps.Get(a.which), next.Get(a.which);
      assert Renaming(m, hi);
      RegisterRenames(id, m, hi);
      MapKept(maps, a.which, RegisterNewGuid(id, m, hi), next);
    }
  }

  /** A column after its action, seen with the maps as they end up. */
  predicate Follows(a: Action, row: Row, out: Row, maps: Maps)
    requires |out| == |row| && a.col >= 1
  {
    match a
    case SetTo(col, text) => col <= |row| && out[col - 1] == Some(text)
    case Rename(col, w, nonzero) =>
      var id := Atoi(Column(row, col));
      if col > |row| then nonzero
      else if nonzero && id == 0 then out[col - 1] == row[col - 1]
      else id in maps.Get(w) && out[col - 1] == Some(ToString(maps.Get(w)[id]))
  }

  predicate DistinctColumns(acts: seq<Action>) {
    && (forall i :: 0 <= i < |acts| ==> acts[i].col >= 1)
    && (forall i, j :: 0 <= i < j < |acts| ==> acts[i].col != acts[j].col)
  }

  ghost predicate RowDone(acts: seq<Action>, row: Row, out: Row, maps: Maps)
    requires DistinctColumns(acts)
  {
    && |out| == |row|
    && (forall a :: a in acts ==> Follows(a, row, out, maps))
    && (forall c :: 0 <= c < |row| && (forall i :: 0 <= i < |acts| ==> acts[i].col != c + 1) ==> out[c] == row[c])
  }

  lemma ColumnUntouched(before: seq<Action>, a: Action, row: Row, r: Row, m: Maps)
    requires DistinctColumns(before + [a]) && DistinctColumns(before) && RowDone(before, row, r, m)
    ensures 1 <= a.col && (a.col <= |row| ==> r[a.col - 1] == row[a.col - 1])
    ensures forall b :: b in before ==> b.col != a.col
  {
    var acts := before + [a];
    assert acts[|before|] == a;
    forall i | 0 <= i < |before| ensures before[i].col != a.col {
      assert acts[i] == before[i];
    }
  }

  lemma FollowsOwn(a: Action, row: Row, r: Row, m: Maps, next: Next)
    requires a.col >= 1 && |r| == |row| && (a.col <= |row| ==> r[a.col - 1] == row[a.col - 1])
    requires ActRow(a, r, m, next).Some?
    ensures |ActRow(a, r, m, next).value.0| == |row|
    ensures Follows(a, row, ActRow(a, r, m, next).value.0, ActRow(a, r, m, next).value.1)
    ensures forall c :: 0 <= c < |row| && c != a.col - 1 ==> ActRow(a, r, m, next).value.0[c] == r[c]
  {
  }

  lemma FollowsOn(b: Action, row: Row, r: Row, out: Row, m: Maps, maps': Maps)
    requires b.col >= 1 && |r| == |row| == |out| && Follows(b, row, r, m) && Extends(m, maps')
    requires b.col <= |row| ==> out[b.col - 1] == r[b.col - 1]
    ensures Follows(b, row, out, maps')
  {
  }

  lemma ActDone(before: seq<Action>, a: Action, row: Row, r: Row, m: Maps, next: Next)
    requires DistinctColumns(before + [a]) && DistinctColumns(before) && RowDone(before, row, r, m)
    requires AllRenamings(m, next) && a.col >= 1 && ActRow(a, r, m, next).Some?
    ensures RowDone(before + [a], row, ActRow(a, r, m, next).value.0, ActRow(a, r, m, next).value.1)
  {
    ActKeeps(a, r, m, next);
    ColumnUntouched(before, a, row, r, m);
    FollowsOwn(a, row, r, m, next);
    var (out, maps') := ActRow(a, r, m, next).value;
    var acts := before + [a];
    forall b | b in before ensures Follows(b, row, out, maps') { FollowsOn(b, row, r, out, m, maps'); }
    forall c | 0 <= c < |row| && (forall i :: 0 <= i < |acts| ==> acts[i].col != c + 1) ensures out[c] == row[c] {
      assert acts[|before|].col != c + 1;
      assert forall i :: 0 <= i < |before| ==> acts[i].col == before[i].col;
    }
  }

  /** All actions of a line are carried out, and nothing else is changed. */
  lemma {:induction false} ActAllDone(acts: seq<Action>, row: Row, maps: Maps, next: Next)
    requires DistinctColumns(acts) && AllRenamings(maps, next) && ActAllRow(acts, row, maps, next).Some?
    ensures RowDone(acts, row, ActAllRow(acts, row, maps, next).value.0, ActAllRow(acts, row, maps, next).value.1)
    ensures AllRenamings(ActAllRow(acts, row, maps, next).value.1, next)
    ensures Extends(maps, ActAllRow(acts, row, maps, next).value.1)
    decreases |acts|
  {
    if acts != [] {
      var before, a := acts[..|acts| - 1], acts[|acts| - 1];
      assert acts == before + [a];
      DistinctBefore(before, a);
      ActAllDone(before, row, maps, next);
      var (r, m) := ActAllRow(before, row, maps, next).value;
      ActKeeps(a, r, m, next);
      ActDone(before, a, row, r, m, next);
    }
  }

  lemma DistinctBefore(before: seq<Action>, a: Action)
    requires DistinctColumns(before + [a])
    ensures DistinctColumns(before) && a.col >= 1
  {
    var acts := before + [a];
    assert acts[|before|] == a;
    assert forall i :: 0 <= i < |before| ==> before[i] == acts[i];
  }

  // ----- Loading a whole dump -----

  datatype TableType = CHARACTER | CHAR_TABLE | INVENTORY | PET | PET_TABLE | ITEM | ITEM_GIFT | ITEM_LOOT | MAIL
    | MAIL_ITEM | ITEM_TEXT

  /** The tables of a dump. */
  function TypeOf(table: string): Option<TableType> {
    if table == "characters" then Some(CHARACTER)
    else if table in ["character_action", "character_aura", "character_homebind", "character_honor_cp",
                      "character_queststatus", "character_reputation", "character_skills", "character_spell",
                      "character_spell_cooldown", "character_ticket"] then Some(CHAR_TABLE)
    else if table == "character_inventory" then Some(INVENTORY)
    else if table == "character_pet" then Some(PET)
    else if table in ["pet_aura", "pet_spell", "pet_spell_cooldown"] then Some(PET_TABLE)
    else if table == "mail" then Some(MAIL)
    else if table == "mail_items" then Some(MAIL_ITEM)
    else if table == "character_gifts" then Some(ITEM_GIFT)
    else if table == "item_instance" then Some(ITEM)
    else if table == "item_loot" then Some(ITEM_LOOT)
    else if table == "item_text" then Some(ITEM_TEXT)
    else None
  }

  /** The 22 tables by what their lines hold. */
  lemma TablesExactly(t: string)
    ensures TypeOf(t) == Some(CHARACTER) <==> t == "characters"
    ensures TypeOf(t) == Some(INVENTORY) <==> t == "character_inventory"
    ensures TypeOf(t) == Some(PET) <==> t == "character_pet"
    ensures TypeOf(t) == Some(PET_TABLE) <==> t in {"pet_aura", "pet_spell", "pet_spell_cooldown"}
    ensures TypeOf(t) == Some(ITEM) <==> t == "item_instance"
    ensures TypeOf(t) == Some(ITEM_GIFT) <==> t == "character_gifts"
    ensures TypeOf(t) == Some(ITEM_LOOT) <==> t == "item_loot"
    ensures TypeOf(t) == Some(ITEM_TEXT) <==> t == "item_text"
    ensures TypeOf(t) == Some(MAIL) <==> t == "mail"
    ensures TypeOf(t) == Some(MAIL_ITEM) <==> t == "mail_items"
    ensures TypeOf(t) == Some(CHAR_TABLE) <==>
              t in {"character_action", "character_aura", "character_homebind", "character_honor_cp",
                    "character_queststatus", "character_reputation", "character_skills", "character_spell",
                    "character_spell_cooldown", "character_ticket"}
  {
  }

  /** What is given to the load: the new character, the account, the names in use, and for each number the first
      one from it on that is free for a pet. */
  datatype Target = Target(guid: string, account: string, usedNames: set<string>, freePet: nat -> nat)

  /** The character keeps the name of the dump, to be changed at login if in use, unless one is given. */
  function NameActions(name: string, original: string, target: Target): (acts: seq<Action>)
    ensures forall a :: a in acts ==> a.col >= 1
  {
    if name == "" then (if original in target.usedNames then [SetTo(35, "1")] else []) else [SetTo(3, name)]
  }

  function Actions(tt: TableType, target: Target, naming: seq<Action>, pet: string): (acts: seq<Action>)
    requires forall a :: a in naming ==> a.col >= 1
    ensures forall a :: a in acts ==> a.col >= 1
  {
    match tt
    case CHARACTER => [SetTo(1, target.guid), SetTo(2, target.account)] + naming
    case CHAR_TABLE => [SetTo(1, target.guid)]
    case INVENTORY => [SetTo(1, target.guid), Rename(2, Items, true), Rename(4, Items, false)]
    case PET => [SetTo(1, pet), SetTo(3, target.guid)]
    case PET_TABLE => [SetTo(1, pet)]
    case ITEM => [Rename(1, Items, false), SetTo(3, target.guid), Rename(13, Texts, true)]
    case ITEM_GIFT => [SetTo(1, target.guid), Rename(2, Items, false)]
    case ITEM_LOOT => [Rename(1, Items, false), SetTo(2, target.guid)]
    case MAIL => [Rename(1, Mails, false), SetTo(6, target.guid), Rename(8, Texts, false)]
    case MAIL_ITEM => [Rename(1, Mails, false), Rename(2, Items, false), SetTo(4, target.guid)]
    case ITEM_TEXT => [Rename(1, Texts, false)]
  }

  /** The last column of a table the load may read or change. */
  function Reach(tt: TableType): nat {
    match tt
    case CHARACTER => 35
    case CHAR_TABLE => 1
    case INVENTORY => 4
    case PET => 3
    case PET_TABLE => 1
    case ITEM => 13
    case ITEM_GIFT => 2
    case ITEM_LOOT => 2
    case MAIL => 8
    case MAIL_ITEM => 4
    case ITEM_TEXT => 1
  }

  /** The column of a table that names the character. */
  function Owner(tt: TableType): Option<nat> {
    match tt
    case CHARACTER => Some(1)
    case CHAR_TABLE => Some(1)
    case INVENTORY => Some(1)
    case PET => Some(3)
    case PET_TABLE => None
    case ITEM => Some(3)
    case ITEM_GIFT => Some(1)
    case ITEM_LOOT => Some(2)
    case MAIL => Some(6)
    case MAIL_ITEM => Some(4)
    case ITEM_TEXT => None
  }

  /** The columns of a table that may change: its own ids, the character's account, name and login flags. */
  function Changing(tt: TableType): set<nat> {
    (set a <- References(tt) :: a.col) + (if Owner(tt).Some? then {Owner(tt).value} else {})
    + (if tt == CHARACTER then {2, 3, 35} else if tt == PET || tt == PET_TABLE then {1} else {})
  }

  /** The columns of a table that hold ids to be renamed. */
  function References(tt: TableType): set<Action> {
    match tt
    case CHARACTER => {}
    case CHAR_TABLE => {}
    case INVENTORY => {Rename(2, Items, true), Rename(4, Items, false)}
    case PET => {}
    case PET_TABLE => {}
    case ITEM => {Rename(1, Items, false), Rename(13, Texts, true)}
    case ITEM_GIFT => {Rename(2, Items, false)}
    case ITEM_LOOT => {Rename(1, Items, false)}
    case MAIL => {Rename(1, Mails, false), Rename(8, Texts, false)}
    case MAIL_ITEM => {Rename(1, Mails, false), Rename(2, Items, false)}
    case ITEM_TEXT => {Rename(1, Texts, false)}
  }

  ghost predicate CleanTarget(target: Target) {
    Clean(target.guid) && Clean(target.account) && forall n :: target.freePet(n) >= n
  }

  lemma ActionsFit(tt: TableType, target: Target, name: string, original: string, pet: string)
    requires CleanTarget(target) && Clean(name) && Clean(pet)
    ensures var acts := Actions(tt, target, NameActions(name, original, target), pet);
            && DistinctColumns(acts) && (forall a :: a in acts ==> a.col >= 1 && CleanAction(a, Reach(tt)))
            && (forall a :: a in References(tt) ==> a in acts)
  {
    ActionsAreDistinct(tt, target, NameActions(name, original, target), pet);
  }

  lemma ActionsAreDistinct(tt: TableType, target: Target, naming: seq<Action>, pet: string)
    requires |naming| <= 1 && forall a :: a in naming ==> a.col == 3 || a.col == 35
    ensures DistinctColumns(Actions(tt, target, naming, pet))
  {
  }

  lemma ActionsCover(tt: TableType, target: Target, name: string, original: string, pet: string)
    ensures var acts := Actions(tt, target, NameActions(name, original, target), pet);
            && (Owner(tt).Some? ==> SetTo(Owner(tt).value, target.guid) in acts)
            && (forall a :: a in acts ==> a.col in Changing(tt))
  {
  }

  /** Something is done in the last of these columns, in that of a character if it is to be renamed. */
  lemma ReachIsTight(tt: TableType, target: Target, pet: string)
    ensures var acts := Actions(tt, target, [SetTo(35, "1")], pet); acts[|acts| - 1].col == Reach(tt)
  {
  }

  // ----- The numbers of pets -----

  /** The pet the last line about a pet itself was about, as text; the new number to be written; the new number of
      each pet, and the first number not asked for yet. */
  datatype Pets = Pets(last: string, number: string, ids: map<nat, nat>, next: nat)

  /** A buffer of 20 characters. */
  function Buffered(s: string): (r: string)
    ensures r <= s && |r| <= 19 && (|r| < 19 ==> r == s)
  {
    if |s| > 19 then s[..19] else s
  }

  function TakeNumber(p: Pets, target: Target): Pets {
    p.(number := ToString(target.freePet(p.next)), next := target.freePet(p.next) + 1)
  }

  /** At the beginning of a load a first number is taken. */
  function NoPets(target: Target, next: nat): Pets { TakeNumber(Pets("", "", map[], next), target) }

  /** A line about a pet: another one than the last gets another number. */
  function AfterPet(p: Pets, id: string, target: Target): Pets {
    var known := if p.last == "" then p.(last := id) else p;
    var numbered := if known.last != id then TakeNumber(known, target).(last := id) else known;
    if Atoi(id) in numbered.ids then numbered else numbered.(ids := numbered.ids[Atoi(id) := Atoi(numbered.number)])
  }

  /** What the line of a table with a first column does; a line about what a pet has needs the pet before it. */
  function PetsAfter(tt: TableType, p: Pets, column: string, target: Target): Option<Pets> {
    var id := Buffered(column);
    if tt == PET then Some(AfterPet(p, id, target))
    else if tt != PET_TABLE then Some(p)
    else if Atoi(id) in p.ids then Some(p.(number := ToString(p.ids[Atoi(id)])))
    else None
  }

  /** Numbers that have been given are below the next, and different pets have different ones. */
  ghost predicate Numbered(p: Pets) {
    && p.number == ToString(Atoi(p.number)) && Atoi(p.number) < p.next
    && (forall x :: x in p.ids ==> p.ids[x] < p.next)
    && (forall x, y :: x in p.ids && y in p.ids && p.ids[x] == p.ids[y] ==> x == y)
    && (if p.last == "" then p.ids == map[] else Atoi(p.last) in p.ids)
  }

  lemma NoPetsNumbered(target: Target, next: nat)
    requires CleanTarget(target)
    ensures Numbered(NoPets(target, next))
  {
    AtoiToString(target.freePet(next));
  }

  /** A pet that is new gets a number nobody has, which is the one written into its line. */
  lemma PetIsNumbered(p: Pets, id: string, target: Target)
    requires CleanTarget(target) && Numbered(p) && id != ""
    ensures var p' := AfterPet(p, id, target);
            && Numbered(p') && Grown(p.ids, p'.ids) && Atoi(id) in p'.ids
            && (Atoi(id) !in p.ids ==> p'.number == ToString(p'.ids[Atoi(id)]))
  {
    AtoiToString(target.freePet(p.next));
    assert target.freePet(p.next) >= p.next;
  }

  /** The number written into a pet's own line is its own exactly when the pet is new, or the last line about a pet
      itself was about it and its number is still the one to be written. */
  lemma PetNumberExactly(p: Pets, id: string, target: Target)
    requires CleanTarget(target) && Numbered(p) && id != ""
    ensures var p' := AfterPet(p, id, target);
            && Atoi(id) in p'.ids
            && (p'.number == ToString(p'.ids[Atoi(id)])
                <==> Atoi(id) !in p.ids || (p.last == id && p.number == ToString(p.ids[Atoi(id)])))
  {
    PetIsNumbered(p, id, target);
    if Atoi(id) in p.ids && p.last != id {
      AtoiToString(target.freePet(p.next));
      AtoiToString(p.ids[Atoi(id)]);
      assert target.freePet(p.next) >= p.next;
    }
  }

  lemma PetsStayNumbered(tt: TableType, p: Pets, column: string, target: Target)
    requires CleanTarget(target) && Numbered(p) && (tt == PET ==> column != "")
             && PetsAfter(tt, p, column, target).Some?
    ensures Numbered(PetsAfter(tt, p, column, target).value)
    ensures Grown(p.ids, PetsAfter(tt, p, column, target).value.ids)
  {
    if tt == PET {
      PetIsNumbered(p, Buffered(column), target);
    } else if tt == PET_TABLE {
      AtoiToString(p.ids[Atoi(Buffered(column))]);
    }
  }

  // ----- Lines -----

  /** A row of a table. */
  datatype Entry = Entry(table: string, row: Row)

  datatype Session = Session(maps: Maps, name: string, pets: Pets)

  /** What is written from a session into lines is clean. */
  ghost predicate CleanSession(s: Session) { Clean(s.name) && Clean(s.pets.number) }

  function NameAfter(tt: TableType, name: string, original: string): string {
    if tt == CHARACTER && name == "" then Escape(original) else name
  }

  /** The name in the line of the character itself. */
  function NameIn(tt: TableType, row: Row): string { if tt == CHARACTER then Column(row, 3) else "" }

  /** One line, as the row it prints. */
  function LoadRow(t: string, row: Row, s: Session, target: Target, next: Next): Option<(Row, Session)> {
    match TypeOf(t)
    case None => None
    case Some(tt) =>
      match PetsAfter(tt, s.pets, Column(row, 1), target)
      case None => None
      case Some(pets) =>
        var original := NameIn(tt, row);
        var acts := Actions(tt, target, NameActions(s.name, original, target), pets.number);
        match ActAllRow(acts, row, s.maps, next)
        case None => None
        case Some((out, maps)) => Some((out, Session(maps, NameAfter(tt, s.name, original), pets)))
  }

  /** One line, as text. */
  function LoadText(line: string, s: Session, target: Target, next: Next): Tried<(string, Session)> {
    match TypeOf(GetTableName(line))
    case None => Broken
    case Some(tt) =>
      if Hangs(line) then Hung
      else match PetsAfter(tt, s.pets, GetNth(line, 1), target)
        case None => Broken
        case Some(pets) =>
          var original := if tt == CHARACTER then GetNth(line, 3) else "";
          var acts := Actions(tt, target, NameActions(s.name, original, target), pets.number);
          match ActAllText(acts, line, s.maps, next)
          case Done((out, maps)) => Done((out, Session(maps, NameAfter(tt, s.name, original), pets)))
          case Broken => Broken
          case Hung => Hung
  }

  lemma PetsStayClean(tt: TableType, p: Pets, column: string, target: Target)
    requires Clean(p.number) && PetsAfter(tt, p, column, target).Some?
    ensures Clean(PetsAfter(tt, p, column, target).value.number)
  {
    AtoiToString(target.freePet(p.next));
    if tt == PET_TABLE { AtoiToString(p.ids[Atoi(Buffered(column))]); }
  }

  lemma NameStaysClean(tt: TableType, name: string, original: string)
    requires Clean(name) && Clean(original)
    ensures Clean(NameAfter(tt, name, original))
  {
    EscapedIsClean(original);
  }

  /** What is read and changed in the line is clean; other fields may be anything, and null. */
  predicate Loadable(e: Entry) {
    TableName(e.table) && (TypeOf(e.table).Some? ==> CleanUpTo(e.row, Reach(TypeOf(e.table).value)))
  }

  /** Loading a printed line is loading its row. */
  lemma LoadAgrees(e: Entry, end: string, s: Session, target: Target, next: Next)
    requires Loadable(e) && LineEnd(end) && CleanTarget(target) && CleanSession(s)
    ensures match LoadRow(e.table, e.row, s, target, next)
            case None => LoadText(Print(e.table, e.row) + end, s, target, next) == Broken
            case Some((row', s')) =>
              Loadable(Entry(e.table, row')) && |row'| == |e.row| && CleanSession(s')
              && LoadText(Print(e.table, e.row) + end, s, target, next) == Done((Print(e.table, row') + end, s'))
  {
    var t, row := e.table, e.row;
    LineName(Print(t, row) + end, t, row, end);
    if TypeOf(t).Some? {
      LineTells(TypeOf(t).value, t, row, end);
      if PetsAfter(TypeOf(t).value, s.pets, Column(row, 1), target).Some? {
        KnownLineAgrees(TypeOf(t).value, t, row, end, s, target, next);
      }
    }
  }

  lemma KnownLineAgrees(tt: TableType, t: string, row: Row, end: string, s: Session, target: Target, next: Next)
    requires CleanUpTo(row, Reach(tt)) && TableName(t) && LineEnd(end) && CleanTarget(target) && CleanSession(s)
    requires PetsAfter(tt, s.pets, Column(row, 1), target).Some?
    ensures var pets := PetsAfter(tt, s.pets, Column(row, 1), target).value;
            var acts := Actions(tt, target, NameActions(s.name, NameIn(tt, row), target), pets.number);
            && Clean(NameAfter(tt, s.name, NameIn(tt, row))) && Clean(pets.number)
            && SameLine(ActAllText(acts, LineOf(t, row, end), s.maps, next), ActAllRow(acts, row, s.maps, next),
                        Printer(t, end), |row|, Reach(tt))
  {
    var pets := PetsAfter(tt, s.pets, Column(row, 1), target).value;
    PetsStayClean(tt, s.pets, Column(row, 1), target);
    NameStaysClean(tt, s.name, NameIn(tt, row));
    ActionsFit(tt, target, s.name, NameIn(tt, row), pets.number);
    var acts := Actions(tt, target, NameActions(s.name, NameIn(tt, row), target), pets.number);
    LinesAreFaithful(t, end, Reach(tt));
    ActAllAgrees(acts, Printer(t, end), row, Reach(tt), s.maps, next);
  }

  /** What the loader looks at in a line before it changes it. */
  lemma LineTells(tt: TableType, t: string, row: Row, end: string)
    requires CleanUpTo(row, Reach(tt)) && TableName(t) && LineEnd(end)
    ensures var line := Print(t, row) + end;
            && !Hangs(line) && GetNth(line, 1) == Column(row, 1)
            && (tt == CHARACTER ==> GetNth(line, 3) == Column(row, 3))
  {
    var line := LineOf(t, row, end);
    LineNeverHangs(line, t, row, end);
    GetFinds(line, t, row, end, 1);
    if tt == CHARACTER { GetFinds(line, t, row, end, 3); }
  }

  /** A line of a dump that is skipped: blank, or a note. */
  predicate Blank(c: char) { c == ' ' || c == '\t' || c == '\n' || c == '\r' || c == 7 as char }

  function FirstSolid(line: string): nat {
    if line == "" then 0 else if Blank(line[0]) then 1 + FirstSolid(line[1..]) else 0
  }

  const NOTE := "IMPORTANT NOTE:"
  const REQUIRED := "UPDATE character_db_version SET required_"

  predicate Skipped(line: string) {
    FirstSolid(line) >= |line| || MatchesAt(line, NOTE, FirstSolid(line))
  }

  /** What has been carried out so far, and the session. */
  datatype Progress<T> = Progress(done: seq<T>, session: Session)

  function LoadNext(line: string, p: Progress<string>, target: Target, next: Next): Tried<Progress<string>> {
    if Skipped(line) then Done(p)
    else if MatchesAt(line, REQUIRED, FirstSolid(line)) then Done(p.(done := p.done + [line]))
    else match LoadText(line, p.session, target, next)
      case Done((out, s)) => Done(Progress(p.done + [out], s))
      case Broken => Broken
      case Hung => Hung
  }

  /** All lines in order; the load stops at the first that fails. */
  function LoadAll(lines: seq<string>, s: Session, target: Target, next: Next): Tried<Progress<string>>
    decreases |lines|
  {
    if lines == [] then Done(Progress([], s))
    else match LoadAll(lines[..|lines| - 1], s, target, next)
      case Done(p) => LoadNext(lines[|lines| - 1], p, target, next)
      case failed => failed
  }

  method LoadDump(lines: seq<string>, s0: Session, target: Target, next: Next)
    returns (r: Tried<Progress<string>>, after: Next)
    ensures r == LoadAll(lines, s0, target, next)
    ensures after == if r.Done? then NextAfter(r.value.session.maps, next) else next
  {
    var done: seq<string>, s := [], s0;
    for n := 0 to |lines|
      invariant LoadAll(lines[..n], s0, target, next) == Done(Progress(done, s))
    {
      assert lines[..n + 1][..n] == lines[..n];
      var line := lines[n];
      if Skipped(line) { continue; }
      if MatchesAt(line, REQUIRED, FirstSolid(line)) {
        done := done + [line];
        continue;
      }
      var loaded := LoadText(line, s, target, next);
      if !loaded.Done? {
        LoadAllFails(lines, n + 1, s0, target, next);
        return (if loaded.Hung? then Hung else Broken), next;
      }
      done, s := done + [loaded.value.0], loaded.value.1;
    }
    assert lines[..|lines|] == lines;
    return Done(Progress(done, s)), NextAfter(s.maps, next);
  }

  lemma {:induction false} LoadAllFails(lines: seq<string>, n: nat, s: Session, target: Target, next: Next)
    requires n <= |lines| && !LoadAll(lines[..n], s, target, next).Done?
    ensures LoadAll(lines, s, target, next) == LoadAll(lines[..n], s, target, next)
    decreases |lines|
  {
    if n < |lines| {
      var m := |lines| - 1;
      assert lines[..m][..n] == lines[..n];
      LoadAllFails(lines[..m], n, s, target, next);
    } else {
      assert lines[..n] == lines;
    }
  }

  /** Where the generators stand after a load. */
  function NextAfter(maps: Maps, next: Next): Next {
    Next(next.items + |maps.items|, next.mails + |maps.mails|, next.texts + |maps.texts|)
  }

  // ----- A whole dump as rows -----

  /** What a dump consists of: notes, blank lines, guards for the version of the database, and rows. */
  datatype Line = Note(text: string) | BlankLine(text: string) | Guard(text: string) | Insert(e: Entry)

  function LoadLine(l: Line, p: Progress<Line>, target: Target, next: Next): Option<Progress<Line>> {
    match l
    case Note(_) => Some(p)
    case BlankLine(_) => Some(p)
    case Guard(_) => Some(p.(done := p.done + [l]))
    case Insert(e) =>
      match LoadRow(e.table, e.row, p.session, target, next)
      case None => None
      case Some((out, s')) => Some(Progress(p.done + [Insert(Entry(e.table, out))], s'))
  }

  function LoadLines(lines: seq<Line>, s: Session, target: Target, next: Next): Option<Progress<Line>>
    decreases |lines|
  {
    if lines == [] then Some(Progress([], s))
    else match LoadLines(lines[..|lines| - 1], s, target, next)
      case None => None
      case Some(p) => LoadLine(lines[|lines| - 1], p, target, next)
  }

  predicate GoodLine(l: Line) {
    match l
    case Note(_) => true
    case BlankLine(text) => forall i :: 0 <= i < |text| ==> text[i] in {' ', '\t', '\n', '\r', 7 as char}
    case Guard(_) => true
    case Insert(e) => Loadable(e)
  }

  predicate GoodLines(lines: seq<Line>) { forall i :: 0 <= i < |lines| ==> GoodLine(lines[i]) }

  function TextOf(l: Line): string {
    match l
    case Note(text) => NOTE + text
    case BlankLine(text) => text
    case Guard(text) => REQUIRED + text
    case Insert(e) => Print(e.table, e.row) + "\n"
  }

  function TextsOf(lines: seq<Line>): seq<string> {
    if lines == [] then [] else TextsOf(lines[..|lines| - 1]) + [TextOf(lines[|lines| - 1])]
  }

  /** A text that is there agrees with the line in every place. */
  lemma BeginsAlike(line: string, t: string, k: nat)
    requires k < |line| && k < |t|
    ensures MatchesAt(line, t, 0) ==> line[k] == t[k]
  {
    if MatchesAt(line, t, 0) { assert line[0..|t|][k] == line[k]; }
  }

  lemma {:induction false} BlankIsSkipped(text: string)
    requires forall i :: 0 <= i < |text| ==> Blank(text[i])
    ensures FirstSolid(text) == |text|
  {
    if text != "" { BlankIsSkipped(text[1..]); }
  }

  /** The loader tells the kinds of lines apart. */
  lemma KindsAreToldApart(l: Line)
    requires GoodLine(l)
    ensures Skipped(TextOf(l)) <==> l.Note? || l.BlankLine?
    ensures l.Guard? ==> MatchesAt(TextOf(l), REQUIRED, FirstSolid(TextOf(l)))
    ensures l.Insert? ==> FirstSolid(TextOf(l)) == 0 && !MatchesAt(TextOf(l), REQUIRED, 0)
  {
    var line := TextOf(l);
    match l
    case Note(text) => assert line[0] == 'I' && line[0..|NOTE|] == NOTE;
    case BlankLine(text) => BlankIsSkipped(text);
    case Guard(text) =>
      assert line[0] == 'U' && line[0..|REQUIRED|] == REQUIRED;
      BeginsAlike(line, NOTE, 0);
    case Insert(e) =>
      assert line[0] == 'I' && line[1] == 'N';
      BeginsAlike(line, NOTE, 1);
      BeginsAlike(line, REQUIRED, 0);
  }

  /** Loading a line as text is loading it as what it is. */
  ghost predicate SameLoad(text: Tried<Progress<string>>, lines: Option<Progress<Line>>) {
    match lines
    case None => text == Broken
    case Some(p) => GoodLines(p.done) && CleanSession(p.session) && text == Done(Progress(TextsOf(p.done), p.session))
  }

  lemma NextAgrees(l: Line, p: Progress<Line>, target: Target, next: Next)
    requires GoodLine(l) && CleanTarget(target) && GoodLines(p.done) && CleanSession(p.session)
    ensures SameLoad(LoadNext(TextOf(l), Progress(TextsOf(p.done), p.session), target, next),
                     LoadLine(l, p, target, next))
  {
    if l.Insert? {
      InsertAgrees(l, p, target, next);
    } else {
      KindsAreToldApart(l);
      if l.Guard? { OneMoreText(p.done, l); }
    }
  }

  lemma OneMoreText(lines: seq<Line>, l: Line)
    ensures TextsOf(lines + [l]) == TextsOf(lines) + [TextOf(l)]
  {
    assert (lines + [l])[..|lines|] == lines;
  }

  lemma InsertAgrees(l: Line, p: Progress<Line>, target: Target, next: Next)
    requires GoodLine(l) && l.Insert? && CleanTarget(target) && GoodLines(p.done) && CleanSession(p.session)
    ensures SameLoad(LoadNext(TextOf(l), Progress(TextsOf(p.done), p.session), target, next),
                     LoadLine(l, p, target, next))
  {
    KindsAreToldApart(l);
    LoadAgrees(l.e, "\n", p.session, target, next);
    var loaded := LoadRow(l.e.table, l.e.row, p.session, target, next);
    if loaded.Some? { OneMoreText(p.done, Insert(Entry(l.e.table, loaded.value.0))); }
  }

  lemma LoadAllSnoc(lines: seq<string>, line: string, s: Session, target: Target, next: Next)
    ensures LoadAll(lines + [line], s, target, next) ==
            match LoadAll(lines, s, target, next) case Done(p) => LoadNext(line, p, target, next) case failed => failed
  {
    assert (lines + [line])[..|lines|] == lines;
  }

  /** Loading the text of a dump - notes, blank lines, guards and rows - is loading its rows. */
  lemma {:induction false} DumpAgrees(lines: seq<Line>, s: Session, target: Target, next: Next)
    requires GoodLines(lines) && CleanTarget(target) && CleanSession(s)
    ensures SameLoad(LoadAll(TextsOf(lines), s, target, next), LoadLines(lines, s, target, next))
    decreases |lines|
  {
    if lines != [] {
      var rest, l := lines[..|lines| - 1], lines[|lines| - 1];
      DumpAgrees(rest, s, target, next);
      LoadAllSnoc(TextsOf(rest), TextOf(l), s, target, next);
      match LoadLines(rest, s, target, next)
      case None =>
      case Some(p) => NextAgrees(l, p, target, next);
    }
  }

  /** What the server writes: two notes, a guard if the database has one, and the rows of the character. */
  function Written(guard: Option<string>, entries: seq<Entry>): seq<Line> {
    Framed([Note(WARNING), Note(DANGER), BlankLine("\n")],
           if guard.Some? then [Guard(guard.value + " = 1 WHERE FALSE;\n"), BlankLine("\n")] else [], entries,
           [BlankLine("\n")])
  }

  function Framed(head: seq<Line>, version: seq<Line>, entries: seq<Entry>, last: seq<Line>): seq<Line> {
    head + version + Inserts(entries) + last
  }

  const WARNING := " This sql queries not created for apply directly, "
    + "use '.pdump load' command in console or client chat instead.\n"
  const DANGER := " NOT APPLY ITS DIRECTLY to character DB or you will DAMAGE and CORRUPT character DB\n"

  function Inserts(entries: seq<Entry>): seq<Line> {
    seq(|entries|, i requires 0 <= i < |entries| => Insert(entries[i]))
  }

  /** The rows among the lines. */
  function Entries(lines: seq<Line>): seq<Entry> {
    if lines == [] then []
    else Entries(lines[..|lines| - 1]) + if lines[|lines| - 1].Insert? then [lines[|lines| - 1].e] else []
  }

  lemma {:induction false} EntriesConcat(a: seq<Line>, b: seq<Line>)
    ensures Entries(a + b) == Entries(a) + Entries(b)
    decreases |b|
  {
    if b == [] {
      assert a + b == a;
    } else {
      assert (a + b)[..|a + b| - 1] == a + b[..|b| - 1];
      EntriesConcat(a, b[..|b| - 1]);
    }
  }

  lemma {:induction false} EntriesOfInserts(entries: seq<Entry>)
    ensures Entries(Inserts(entries)) == entries
    decreases |entries|
  {
    if entries != [] {
      var rest := entries[..|entries| - 1];
      EntriesOfInserts(rest);
      assert Inserts(entries)[..|entries| - 1] == Inserts(rest);
    }
  }

  /** A written dump is one that can be loaded, with exactly the rows it was written for. */
  lemma WrittenIsGood(guard: Option<string>, entries: seq<Entry>)
    requires forall i :: 0 <= i < |entries| ==> Loadable(entries[i])
    ensures GoodLines(Written(guard, entries)) && Entries(Written(guard, entries)) == entries
  {
    var head, last := [Note(WARNING), Note(DANGER), BlankLine("\n")], [BlankLine("\n")];
    var version := if guard.Some? then [Guard(guard.value + " = 1 WHERE FALSE;\n"), BlankLine("\n")] else [];
    FramedIsGood(head, version, entries, last);
  }

  lemma FramedIsGood(head: seq<Line>, version: seq<Line>, entries: seq<Entry>, last: seq<Line>)
    requires GoodLines(head) && GoodLines(version) && GoodLines(last)
    requires NoInserts(head) && NoInserts(version) && NoInserts(last)
    requires forall i :: 0 <= i < |entries| ==> Loadable(entries[i])
    ensures GoodLines(Framed(head, version, entries, last)) && Entries(Framed(head, version, entries, last)) == entries
  {
    NoEntries(head);
    NoEntries(version);
    NoEntries(last);
    EntriesOfInserts(entries);
    assert GoodLines(Inserts(entries));
    Joined(head, version);
    Joined(head + version, Inserts(entries));
    Joined(head + version + Inserts(entries), last);
  }

  predicate NoInserts(lines: seq<Line>) { forall i :: 0 <= i < |lines| ==> !lines[i].Insert? }

  lemma Joined(a: seq<Line>, b: seq<Line>)
    requires GoodLines(a) && GoodLines(b)
    ensures GoodLines(a + b) && Entries(a + b) == Entries(a) + Entries(b)
  {
    EntriesConcat(a, b);
  }

  lemma {:induction false} NoEntries(lines: seq<Line>)
    requires NoInserts(lines)
    ensures Entries(lines) == []
    decreases |lines|
  {
    if lines != [] { NoEntries(lines[..|lines| - 1]); }
  }

  /** Every reference of a line, seen with the maps and the numbers of pets as they end up; the line names the new
      character, and what holds no id or owner is as it was. */
  ghost predicate EntryFollows(e: Entry, out: Entry, guid: string, maps: Maps, pets: map<nat, nat>) {
    && out.table == e.table && TypeOf(e.table).Some?
    && RowFollows(TypeOf(e.table).value, e.row, out.row, guid, maps)
    && PetFollows(TypeOf(e.table).value, e.row, out.row, pets)
  }

  ghost predicate RowFollows(tt: TableType, row: Row, out: Row, guid: string, maps: Maps) {
    && |out| == |row|
    && (forall a :: a in References(tt) ==> a.col >= 1 && Follows(a, row, out, maps))
    && (Owner(tt).Some? ==> Column(out, Owner(tt).value) == guid)
    && (forall c :: 0 <= c < |row| && c + 1 !in Changing(tt) ==> out[c] == row[c])
  }

  lemma DoneFollows(tt: TableType, acts: seq<Action>, row: Row, out: Row, guid: string, maps: Maps)
    requires DistinctColumns(acts) && RowDone(acts, row, out, maps)
    requires forall a :: a in References(tt) ==> a in acts
    requires Owner(tt).Some? ==> SetTo(Owner(tt).value, guid) in acts
    requires forall a :: a in acts ==> a.col in Changing(tt)
    ensures RowFollows(tt, row, out, guid, maps)
  {
    OwnerIsSet(Owner(tt), acts, row, out, guid, maps);
    OthersStay(Changing(tt), acts, row, out, maps);
  }

  lemma OwnerIsSet(owner: Option<nat>, acts: seq<Action>, row: Row, out: Row, guid: string, maps: Maps)
    requires DistinctColumns(acts) && RowDone(acts, row, out, maps)
    requires owner.Some? ==> SetTo(owner.value, guid) in acts
    ensures owner.Some? ==> Column(out, owner.value) == guid
  {
    if owner.Some? { assert Follows(SetTo(owner.value, guid), row, out, maps); }
  }

  lemma OthersStay(changing: set<nat>, acts: seq<Action>, row: Row, out: Row, maps: Maps)
    requires DistinctColumns(acts) && RowDone(acts, row, out, maps) && forall a :: a in acts ==> a.col in changing
    ensures |out| == |row| && forall c :: 0 <= c < |row| && c + 1 !in changing ==> out[c] == row[c]
  {
    forall c | 0 <= c < |row| && c + 1 !in changing ensures out[c] == row[c] {
      forall i | 0 <= i < |acts| ensures acts[i].col != c + 1 {
        assert acts[i] in acts;
      }
    }
  }

  /** A line about a pet has registered it, and one about what it has bears its new number. */
  ghost predicate PetFollows(tt: TableType, row: Row, out: Row, pets: map<nat, nat>) {
    tt == PET || tt == PET_TABLE ==>
      var id := Atoi(Buffered(Column(row, 1)));
      row != [] && |out| == |row| && id in pets && (tt == PET_TABLE ==> out[0] == Some(ToString(pets[id])))
  }

  lemma PetLineFollows(tt: TableType, row: Row, s: Session, target: Target, next: Next, acts: seq<Action>)
    requires PetsAfter(tt, s.pets, Column(row, 1), target).Some? && (tt == PET || tt == PET_TABLE)
    requires acts == Actions(tt, target, [], PetsAfter(tt, s.pets, Column(row, 1), target).value.number)
    requires DistinctColumns(acts) && ActAllRow(acts, row, s.maps, next).Some?
    requires RowDone(acts, row, ActAllRow(acts, row, s.maps, next).value.0, ActAllRow(acts, row, s.maps, next).value.1)
    ensures PetFollows(tt, row, ActAllRow(acts, row, s.maps, next).value.0,
                       PetsAfter(tt, s.pets, Column(row, 1), target).value.ids)
  {
    assert acts[0] in acts && acts[0].col == 1;
  }

  lemma PetsGrow(tt: TableType, p: Pets, column: string, target: Target)
    requires PetsAfter(tt, p, column, target).Some?
    ensures Grown(p.ids, PetsAfter(tt, p, column, target).value.ids)
  {
  }

  lemma LoadRowFollows(e: Entry, s: Session, target: Target, next: Next)
    requires CleanTarget(target) && CleanSession(s) && Loadable(e) && AllRenamings(s.maps, next)
    requires LoadRow(e.table, e.row, s, target, next).Some?
    ensures var (out, s') := LoadRow(e.table, e.row, s, target, next).value;
            EntryFollows(e, Entry(e.table, out), target.guid, s'.maps, s'.pets.ids) && AllRenamings(s'.maps, next)
            && Extends(s.maps, s'.maps) && Grown(s.pets.ids, s'.pets.ids) && CleanSession(s')
  {
    var tt := TypeOf(e.table).value;
    var pet := PetsAfter(tt, s.pets, Column(e.row, 1), target).value.number;
    var original := NameIn(tt, e.row);
    var naming := NameActions(s.name, original, target);
    PetsStayClean(tt, s.pets, Column(e.row, 1), target);
    NameStaysClean(tt, s.name, original);
    ActionsFit(tt, target, s.name, original, pet);
    var acts := Actions(tt, target, naming, pet);
    var (out, maps) := ActAllRow(acts, e.row, s.maps, next).value;
    ActAllDone(acts, e.row, s.maps, next);
    assert RowFollows(tt, e.row, out, target.guid, maps) by {
      ActionsCover(tt, target, s.name, original, pet);
      DoneFollows(tt, acts, e.row, out, target.guid, maps);
    }
    PetsGrow(tt, s.pets, Column(e.row, 1), target);
    if tt == PET || tt == PET_TABLE {
      PetLineFollows(tt, e.row, s, target, next, acts);
    }
  }

  lemma EntryFollowsOn(e: Entry, out: Entry, guid: string, maps: Maps, pets: map<nat, nat>, maps': Maps,
                       pets': map<nat, nat>)
    requires EntryFollows(e, out, guid, maps, pets) && Extends(maps, maps') && Grown(pets, pets')
    ensures EntryFollows(e, out, guid, maps', pets')
  {
    var tt := TypeOf(e.table).value;
    assert RowFollows(tt, e.row, out.row, guid, maps') by {
      forall a | a in References(tt) ensures a.col >= 1 && Follows(a, e.row, out.row, maps') {
        FollowsOn(a, e.row, out.row, out.row, maps, maps');
      }
    }
  }

  ghost predicate DumpFollows(entries: seq<Entry>, done: seq<Entry>, guid: string, maps: Maps, pets: map<nat, nat>) {
    |done| == |entries| && forall i :: 0 <= i < |entries| ==> EntryFollows(entries[i], done[i], guid, maps, pets)
  }

  lemma DumpFollowsOn(entries: seq<Entry>, done: seq<Entry>, guid: string, maps: Maps, pets: map<nat, nat>, e: Entry,
                      out: Entry, maps': Maps, pets': map<nat, nat>)
    requires DumpFollows(entries, done, guid, maps, pets) && Extends(maps, maps') && Grown(pets, pets')
    requires EntryFollows(e, out, guid, maps', pets')
    ensures DumpFollows(entries + [e], done + [out], guid, maps', pets')
  {
    forall i | 0 <= i < |entries| ensures EntryFollows(entries[i], done[i], guid, maps', pets') {
      EntryFollowsOn(entries[i], done[i], guid, maps, pets, maps', pets');
    }
  }

  const NO_MAPS := Maps(map[], map[], map[])

  /** At the beginning of a load nothing is renamed yet. */
  function Begin(name: string, target: Target, pet: nat): Session { Session(NO_MAPS, name, NoPets(target, pet)) }

  lemma InsertFollows(e: Entry, entries: seq<Entry>, p: Progress<Line>, target: Target, next: Next)
    requires Loadable(e) && CleanTarget(target) && CleanSession(p.session) && AllRenamings(p.session.maps, next)
    requires DumpFollows(entries, Entries(p.done), target.guid, p.session.maps, p.session.pets.ids)
    requires LoadLine(Insert(e), p, target, next).Some?
    ensures var p' := LoadLine(Insert(e), p, target, next).value;
            && AllRenamings(p'.session.maps, next) && CleanSession(p'.session)
            && DumpFollows(entries + [e], Entries(p'.done), target.guid, p'.session.maps, p'.session.pets.ids)
  {
    LoadRowFollows(e, p.session, target, next);
    var (out, s') := LoadRow(e.table, e.row, p.session, target, next).value;
    var o := Entry(e.table, out);
    assert (p.done + [Insert(o)])[..|p.done|] == p.done;
    DumpFollowsOn(entries, Entries(p.done), target.guid, p.session.maps, p.session.pets.ids, e, o, s'.maps,
                  s'.pets.ids);
  }

  lemma {:induction false} LinesFollow(lines: seq<Line>, name: string, target: Target, next: Next, pet: nat)
    requires GoodLines(lines) && CleanTarget(target) && Clean(name)
    requires LoadLines(lines, Begin(name, target, pet), target, next).Some?
    ensures var p := LoadLines(lines, Begin(name, target, pet), target, next).value;
            && AllRenamings(p.session.maps, next) && CleanSession(p.session)
            && DumpFollows(Entries(lines), Entries(p.done), target.guid, p.session.maps, p.session.pets.ids)
    decreases |lines|
  {
    if lines == [] {
      AtoiToString(target.freePet(pet));
    } else {
      var rest, l := lines[..|lines| - 1], lines[|lines| - 1];
      LinesFollow(rest, name, target, next, pet);
      var p := LoadLines(rest, Begin(name, target, pet), target, next).value;
      if l.Insert? {
        InsertFollows(l.e, Entries(rest), p, target, next);
      } else {
        OtherLineKeeps(l, p, target, next);
      }
    }
  }

  // ----- The pets' own lines -----

  predicate IsPet(e: Entry) { TypeOf(e.table) == Some(PET) }

  function PetId(e: Entry): nat { Atoi(Buffered(Column(e.row, 1))) }

  /** Each pet has one line of its own, which says which it is. */
  ghost predicate DistinctPets(entries: seq<Entry>) {
    && (forall i :: 0 <= i < |entries| && IsPet(entries[i]) ==> Column(entries[i].row, 1) != "")
    && (forall i, j :: 0 <= i < j < |entries| && IsPet(entries[i]) && IsPet(entries[j]) ==>
          PetId(entries[i]) != PetId(entries[j]))
  }

  ghost predicate BearsOwn(e: Entry, out: Entry, pets: map<nat, nat>) {
    IsPet(e) ==> out.row != [] && PetId(e) in pets && out.row[0] == Some(ToString(pets[PetId(e)]))
  }

  /** The line of each pet bears its new number. */
  ghost predicate PetsBearTheirs(entries: seq<Entry>, done: seq<Entry>, pets: map<nat, nat>) {
    |done| == |entries| && forall i :: 0 <= i < |entries| ==> BearsOwn(entries[i], done[i], pets)
  }

  /** Only pets that have had their line have a number. */
  ghost predicate OnlySeen(entries: seq<Entry>, pets: map<nat, nat>) {
    forall x :: x in pets ==> exists i :: 0 <= i < |entries| && IsPet(entries[i]) && PetId(entries[i]) == x
  }

  lemma PetRowBears(e: Entry, s: Session, target: Target, next: Next)
    requires CleanTarget(target) && Numbered(s.pets) && (IsPet(e) ==> Column(e.row, 1) != "" && PetId(e) !in s.pets.ids)
    requires LoadRow(e.table, e.row, s, target, next).Some?
    ensures var (out, s') := LoadRow(e.table, e.row, s, target, next).value;
            BearsOwn(e, Entry(e.table, out), s'.pets.ids) && Numbered(s'.pets) && Grown(s.pets.ids, s'.pets.ids)
    ensures forall x :: x in LoadRow(e.table, e.row, s, target, next).value.1.pets.ids ==>
              x in s.pets.ids || (IsPet(e) && x == PetId(e))
  {
    var tt := TypeOf(e.table).value;
    PetsStayNumbered(tt, s.pets, Column(e.row, 1), target);
    if tt == PET {
      PetIsNumbered(s.pets, Buffered(Column(e.row, 1)), target);
      var number := PetsAfter(tt, s.pets, Column(e.row, 1), target).value.number;
      TwoSet(number, target.guid, e.row, s.maps, next);
    }
  }

  lemma TwoSet(a: string, b: string, row: Row, maps: Maps, next: Next)
    ensures var acts := [SetTo(1, a), SetTo(3, b)];
            ActAllRow(acts, row, maps, next) ==
            if |row| < 3 then None else Some((row[0 := Some(a)][2 := Some(b)], maps))
  {
    var acts := [SetTo(1, a), SetTo(3, b)];
    assert acts[..1] == [SetTo(1, a)] && acts[..1][..0] == [];
    assert ActAllRow(acts[..1], row, maps, next) == ActRow(SetTo(1, a), row, maps, next);
  }

  lemma {:induction false} PetLinesFollow(lines: seq<Line>, name: string, target: Target, next: Next, pet: nat)
    requires GoodLines(lines) && CleanTarget(target) && Clean(name) && DistinctPets(Entries(lines))
    requires LoadLines(lines, Begin(name, target, pet), target, next).Some?
    ensures var p := LoadLines(lines, Begin(name, target, pet), target, next).value;
            && Numbered(p.session.pets) && OnlySeen(Entries(lines), p.session.pets.ids)
            && PetsBearTheirs(Entries(lines), Entries(p.done), p.session.pets.ids)
    decreases |lines|
  {
    if lines == [] {
      NoPetsNumbered(target, pet);
    } else {
      var rest, l := lines[..|lines| - 1], lines[|lines| - 1];
      assert Entries(lines) == if l.Insert? then Entries(rest) + [l.e] else Entries(rest);
      if l.Insert? { DistinctBeforePet(Entries(rest), l.e); }
      PetLinesFollow(rest, name, target, next, pet);
      var p := LoadLines(rest, Begin(name, target, pet), target, next).value;
      if l.Insert? { InsertBears(l.e, Entries(rest), p, target, next); } else { OtherLineKeeps(l, p, target, next); }
    }
  }

  /** A line that is no row changes nothing but what is carried out. */
  lemma OtherLineKeeps(l: Line, p: Progress<Line>, target: Target, next: Next)
    requires !l.Insert?
    ensures LoadLine(l, p, target, next).Some? && LoadLine(l, p, target, next).value.session == p.session
    ensures Entries(LoadLine(l, p, target, next).value.done) == Entries(p.done)
  {
    if l.Guard? { assert (p.done + [l])[..|p.done|] == p.done; }
  }

  lemma DistinctBeforePet(entries: seq<Entry>, e: Entry)
    requires DistinctPets(entries + [e])
    ensures DistinctPets(entries) && (IsPet(e) ==> Column(e.row, 1) != "")
    ensures forall i :: 0 <= i < |entries| && IsPet(entries[i]) && IsPet(e) ==> PetId(entries[i]) != PetId(e)
  {
    var all := entries + [e];
    assert all[|entries|] == e;
    assert forall i :: 0 <= i < |entries| ==> all[i] == entries[i];
  }

  lemma InsertBears(e: Entry, entries: seq<Entry>, p: Progress<Line>, target: Target, next: Next)
    requires CleanTarget(target) && DistinctPets(entries + [e]) && LoadLine(Insert(e), p, target, next).Some?
    requires Numbered(p.session.pets) && OnlySeen(entries, p.session.pets.ids)
    requires PetsBearTheirs(entries, Entries(p.done), p.session.pets.ids)
    ensures var p' := LoadLine(Insert(e), p, target, next).value;
            && Numbered(p'.session.pets) && OnlySeen(entries + [e], p'.session.pets.ids)
            && PetsBearTheirs(entries + [e], Entries(p'.done), p'.session.pets.ids)
  {
    DistinctBeforePet(entries, e);
    PetRowBears(e, p.session, target, next);
    var (out, s') := LoadRow(e.table, e.row, p.session, target, next).value;
    var o := Entry(e.table, out);
    assert (p.done + [Insert(o)])[..|p.done|] == p.done;
    SeenOn(entries, e, p.session.pets.ids, s'.pets.ids);
    BearOn(entries, Entries(p.done), e, o, p.session.pets.ids, s'.pets.ids);
  }

  lemma SeenOn(entries: seq<Entry>, e: Entry, pets: map<nat, nat>, pets': map<nat, nat>)
    requires OnlySeen(entries, pets) && forall x :: x in pets' ==> x in pets || (IsPet(e) && x == PetId(e))
    ensures OnlySeen(entries + [e], pets')
  {
    var all := entries + [e];
    forall x | x in pets' ensures exists i :: 0 <= i < |all| && IsPet(all[i]) && PetId(all[i]) == x {
      if x in pets {
        var i :| 0 <= i < |entries| && IsPet(entries[i]) && PetId(entries[i]) == x;
        assert all[i] == entries[i];
      } else {
        assert all[|entries|] == e;
      }
    }
  }

  lemma BearOn(entries: seq<Entry>, done: seq<Entry>, e: Entry, out: Entry, pets: map<nat, nat>, pets': map<nat, nat>)
    requires PetsBearTheirs(entries, done, pets) && BearsOwn(e, out, pets') && Grown(pets, pets')
    ensures PetsBearTheirs(entries + [e], done + [out], pets')
  {
    forall i | 0 <= i <= |entries| ensures BearsOwn((entries + [e])[i], (done + [out])[i], pets') {
      if i < |entries| { assert BearsOwn(entries[i], done[i], pets); }
    }
  }

  // ----- The character's own line -----

  predicate IsCharacter(e: Entry) { TypeOf(e.table) == Some(CHARACTER) }

  /** The first name among the lines of characters. */
  function FirstName(entries: seq<Entry>): Option<string> {
    if entries == [] then None
    else if IsCharacter(entries[0]) && Column(entries[0].row, 3) != "" then Some(Column(entries[0].row, 3))
    else FirstName(entries[1..])
  }

  /** The name in force behind some lines: the one given, or the first one among them, escaped once more. */
  function NameInForce(entries: seq<Entry>, name: string): string {
    if name != "" then name else match FirstName(entries) case None => "" case Some(n) => Escape(n)
  }

  predicate Unchanged(row: Row, out: Row, col: nat) { 1 <= col <= |row| == |out| ==> out[col - 1] == row[col - 1] }

  /** The line of a character bears the new character and account. With a name in force it bears that; without one it
      keeps its own, and is to be renamed at login exactly if that one is in use. */
  ghost predicate CharacterFollows(e: Entry, out: Entry, name: string, target: Target) {
    IsCharacter(e) ==>
      && |out.row| == |e.row| && Column(out.row, 1) == target.guid && Column(out.row, 2) == target.account
      && if name != "" then |e.row| >= 3 && Column(out.row, 3) == name && Unchanged(e.row, out.row, 35)
         else
           && Unchanged(e.row, out.row, 3)
           && if Column(e.row, 3) in target.usedNames then |e.row| >= 35 && Column(out.row, 35) == "1"
              else Unchanged(e.row, out.row, 35)
  }

  ghost predicate CharactersFollow(entries: seq<Entry>, done: seq<Entry>, name: string, target: Target) {
    |done| == |entries|
    && forall i {:trigger LineFollows(entries, done, i, name, target)} :: 0 <= i < |entries| ==>
         LineFollows(entries, done, i, name, target)
  }

  ghost predicate LineFollows(entries: seq<Entry>, done: seq<Entry>, i: nat, name: string, target: Target)
    requires i < |entries| == |done|
  {
    CharacterFollows(entries[i], done[i], NameInForce(entries[..i], name), target)
  }

  lemma CharacterRowFollows(e: Entry, s: Session, target: Target, next: Next)
    requires CleanTarget(target) && CleanSession(s) && Loadable(e) && AllRenamings(s.maps, next) && IsCharacter(e)
    requires LoadRow(e.table, e.row, s, target, next).Some?
    ensures CharacterFollows(e, Entry(e.table, LoadRow(e.table, e.row, s, target, next).value.0), s.name, target)
  {
    var original := Column(e.row, 3);
    var naming := NameActions(s.name, original, target);
    var acts := Actions(CHARACTER, target, naming, s.pets.number);
    NameStaysClean(CHARACTER, s.name, original);
    ActionsFit(CHARACTER, target, s.name, original, s.pets.number);
    ActAllDone(acts, e.row, s.maps, next);
    var (out, maps) := ActAllRow(acts, e.row, s.maps, next).value;
    AccountIsSet(naming, acts, e.row, out, maps, target);
    NameIsSet(s.name, naming, acts, e.row, out, maps, target);
  }

  lemma AccountIsSet(naming: seq<Action>, acts: seq<Action>, row: Row, out: Row, maps: Maps, target: Target)
    requires acts == [SetTo(1, target.guid), SetTo(2, target.account)] + naming
    requires DistinctColumns(acts) && RowDone(acts, row, out, maps)
    ensures |out| == |row| && Column(out, 1) == target.guid && Column(out, 2) == target.account
  {
    assert acts[0] in acts && acts[1] in acts;
    assert Follows(acts[0], row, out, maps) && Follows(acts[1], row, out, maps);
  }

  lemma NameIsSet(name: string, naming: seq<Action>, acts: seq<Action>, row: Row, out: Row, maps: Maps, target: Target)
    requires naming == NameActions(name, Column(row, 3), target)
    requires acts == [SetTo(1, target.guid), SetTo(2, target.account)] + naming
    requires DistinctColumns(acts) && RowDone(acts, row, out, maps)
    ensures if name != "" then |row| >= 3 && Column(out, 3) == name && Unchanged(row, out, 35)
            else
              && Unchanged(row, out, 3)
              && if Column(row, 3) in target.usedNames then |row| >= 35 && Column(out, 35) == "1"
                 else Unchanged(row, out, 35)
  {
    if naming != [] { assert acts[2] in acts && acts[2] == naming[0]; }
    if name == "" { NotTouched(acts, row, out, maps, 3); }
    if naming == [] || naming[0].col != 35 { NotTouched(acts, row, out, maps, 35); }
  }

  lemma NotTouched(acts: seq<Action>, row: Row, out: Row, maps: Maps, col: nat)
    requires DistinctColumns(acts) && RowDone(acts, row, out, maps)
    requires forall i :: 0 <= i < |acts| ==> acts[i].col != col
    ensures Unchanged(row, out, col)
  {
  }

  lemma {:induction false} FirstNameSnoc(entries: seq<Entry>, e: Entry)
    ensures FirstName(entries + [e]) ==
            if FirstName(entries).Some? then FirstName(entries)
            else if IsCharacter(e) && Column(e.row, 3) != "" then Some(Column(e.row, 3)) else None
    decreases |entries|
  {
    if entries == [] {
      assert [] + [e] == [e] && [e][1..] == [];
    } else {
      FirstNameSnoc(entries[1..], e);
      assert (entries + [e])[1..] == entries[1..] + [e];
    }
  }

  /** An escaped text is empty only if the text is. */
  lemma EscapeKeepsEmpty(s: string)
    ensures Escape(s) == "" <==> s == ""
  {
    if s != "" { assert EscapeChar(s[|s| - 1]) != ""; }
  }

  lemma {:induction false} CharacterLinesFollow(lines: seq<Line>, name: string, target: Target, next: Next, pet: nat)
    requires GoodLines(lines) && CleanTarget(target) && Clean(name)
    requires LoadLines(lines, Begin(name, target, pet), target, next).Some?
    ensures NamesFollow(Entries(lines), LoadLines(lines, Begin(name, target, pet), target, next).value, name, target)
    decreases |lines|
  {
    if lines != [] {
      var rest, l := lines[..|lines| - 1], lines[|lines| - 1];
      CharacterLinesFollow(rest, name, target, next, pet);
      LinesFollow(rest, name, target, next, pet);
      LineNames(l, Entries(rest), name, LoadLines(rest, Begin(name, target, pet), target, next).value, target, next);
    }
  }

  lemma LineNames(l: Line, entries: seq<Entry>, name: string, p: Progress<Line>, target: Target, next: Next)
    requires GoodLine(l) && CleanTarget(target) && CleanSession(p.session) && AllRenamings(p.session.maps, next)
    requires NamesFollow(entries, p, name, target) && LoadLine(l, p, target, next).Some?
    ensures NamesFollow(entries + (if l.Insert? then [l.e] else []), LoadLine(l, p, target, next).value, name, target)
  {
    if l.Insert? {
      InsertNames(l.e, entries, name, p, target, next);
    } else {
      assert entries + [] == entries;
      OtherLineKeeps(l, p, target, next);
    }
  }

  ghost predicate NamesFollow(entries: seq<Entry>, p: Progress<Line>, name: string, target: Target) {
    p.session.name == NameInForce(entries, name) && CharactersFollow(entries, Entries(p.done), name, target)
  }

  lemma InsertNames(e: Entry, entries: seq<Entry>, name: string, p: Progress<Line>, target: Target, next: Next)
    requires Loadable(e) && CleanTarget(target) && CleanSession(p.session) && AllRenamings(p.session.maps, next)
    requires NamesFollow(entries, p, name, target) && LoadLine(Insert(e), p, target, next).Some?
    ensures NamesFollow(entries + [e], LoadLine(Insert(e), p, target, next).value, name, target)
  {
    if IsCharacter(e) { CharacterRowFollows(e, p.session, target, next); }
    NameInForceSnoc(entries, e, name);
    var (out, s') := LoadRow(e.table, e.row, p.session, target, next).value;
    var o := Entry(e.table, out);
    assert (p.done + [Insert(o)])[..|p.done|] == p.done;
    OneMoreCharacter(entries, Entries(p.done), name, target, e, o);
  }

  lemma NameInForceSnoc(entries: seq<Entry>, e: Entry, name: string)
    ensures NameInForce(entries + [e], name) ==
            if IsCharacter(e) && NameInForce(entries, name) == "" then Escape(Column(e.row, 3))
            else NameInForce(entries, name)
  {
    FirstNameSnoc(entries, e);
    if FirstName(entries).Some? { NamesAreThere(entries); }
    EscapeKeepsEmpty(Column(e.row, 3));
  }

  lemma {:induction false} NamesAreThere(entries: seq<Entry>)
    requires FirstName(entries).Some?
    ensures FirstName(entries).value != "" && Escape(FirstName(entries).value) != ""
    decreases |entries|
  {
    EscapeKeepsEmpty(FirstName(entries).value);
    if !(IsCharacter(entries[0]) && Column(entries[0].row, 3) != "") { NamesAreThere(entries[1..]); }
  }

  lemma OneMoreCharacter(entries: seq<Entry>, done: seq<Entry>, name: string, target: Target, e: Entry, out: Entry)
    requires CharactersFollow(entries, done, name, target)
    requires CharacterFollows(e, out, NameInForce(entries, name), target)
    ensures CharactersFollow(entries + [e], done + [out], name, target)
  {
    var all := entries + [e];
    forall i | 0 <= i < |all| ensures LineFollows(all, done + [out], i, name, target) {
      if i < |entries| {
        assert LineFollows(entries, done, i, name, target);
        assert all[..i] == entries[..i];
      } else {
        assert all[..i] == entries;
      }
    }
  }

  // ----- What is carried out -----

  /** The lines that are not skipped. */
  function Kept(lines: seq<Line>): seq<Line> {
    if lines == [] then []
    else if lines[0].Note? || lines[0].BlankLine? then Kept(lines[1..]) else [lines[0]] + Kept(lines[1..])
  }

  /** A guard is carried out as it is, a row changed. */
  predicate CarriedOut(l: Line, done: Line) {
    if l.Insert? then done.Insert? && done.e.table == l.e.table else done == l
  }

  ghost predicate AllCarriedOut(kept: seq<Line>, done: seq<Line>) {
    |done| == |kept| && forall i :: 0 <= i < |kept| ==> CarriedOut(kept[i], done[i])
  }

  lemma {:induction false} KeptSnoc(lines: seq<Line>, l: Line)
    ensures Kept(lines + [l]) == Kept(lines) + if l.Note? || l.BlankLine? then [] else [l]
    decreases |lines|
  {
    if lines == [] {
      assert [] + [l] == [l] && [l][1..] == [];
    } else {
      KeptSnoc(lines[1..], l);
      assert (lines + [l])[1..] == lines[1..] + [l];
    }
  }

  lemma {:induction false} KeptLinesFollow(lines: seq<Line>, s: Session, target: Target, next: Next)
    requires LoadLines(lines, s, target, next).Some?
    ensures AllCarriedOut(Kept(lines), LoadLines(lines, s, target, next).value.done)
    decreases |lines|
  {
    if lines != [] {
      var rest, l := lines[..|lines| - 1], lines[|lines| - 1];
      KeptLinesFollow(rest, s, target, next);
      assert lines == rest + [l];
      KeptSnoc(rest, l);
      LineIsCarriedOut(Kept(rest), l, LoadLines(rest, s, target, next).value, target, next);
    }
  }

  lemma LineIsCarriedOut(kept: seq<Line>, l: Line, p: Progress<Line>, target: Target, next: Next)
    requires AllCarriedOut(kept, p.done) && LoadLine(l, p, target, next).Some?
    ensures AllCarriedOut(kept + (if l.Note? || l.BlankLine? then [] else [l]), LoadLine(l, p, target, next).value.done)
  {
    var done := LoadLine(l, p, target, next).value.done;
    if l.Note? || l.BlankLine? {
      assert kept + [] == kept;
    } else {
      OneCarriedOut(kept, p.done, l, done[|p.done|]);
      assert done == p.done + [done[|p.done|]];
    }
  }

  lemma OneCarriedOut(kept: seq<Line>, done: seq<Line>, l: Line, out: Line)
    requires AllCarriedOut(kept, done) && CarriedOut(l, out)
    ensures AllCarriedOut(kept + [l], done + [out])
  {
  }

  // ----- Which dumps load -----

  /** The columns a table must have for its lines to be loaded. */
  function Needed(tt: TableType): nat {
    match tt
    case CHARACTER => 2
    case CHAR_TABLE => 1
    case INVENTORY => 4
    case PET => 3
    case PET_TABLE => 1
    case ITEM => 3
    case ITEM_GIFT => 2
    case ITEM_LOOT => 2
    case MAIL => 8
    case MAIL_ITEM => 4
    case ITEM_TEXT => 1
  }

  ghost predicate SeenPet(entries: seq<Entry>, id: nat) {
    exists i :: 0 <= i < |entries| && IsPet(entries[i]) && PetId(entries[i]) == id
  }

  /** The name of a character can be put, or the flag to rename it at login. */
  predicate CanBeNamed(row: Row, name: string, target: Target) {
    if name != "" then |row| >= 3 else Column(row, 3) in target.usedNames ==> |row| >= 35
  }

  /** A row loads behind others if its table is one of a dump and has the columns, and what a pet has comes behind the
      pet itself. */
  ghost predicate Fits(e: Entry, before: seq<Entry>, name: string, target: Target) {
    match TypeOf(e.table)
    case None => false
    case Some(tt) =>
      && |e.row| >= Needed(tt)
      && (tt == CHARACTER ==> CanBeNamed(e.row, NameInForce(before, name), target))
      && (tt == PET_TABLE ==> SeenPet(before, PetId(e)))
  }

  ghost predicate FitsAt(entries: seq<Entry>, i: nat, name: string, target: Target)
    requires i < |entries|
  {
    Fits(entries[i], entries[..i], name, target)
  }

  ghost predicate AllFit(entries: seq<Entry>, name: string, target: Target) {
    forall i {:trigger FitsAt(entries, i, name, target)} :: 0 <= i < |entries| ==> FitsAt(entries, i, name, target)
  }

  lemma AllFitSnoc(entries: seq<Entry>, e: Entry, name: string, target: Target)
    ensures AllFit(entries + [e], name, target) <==> AllFit(entries, name, target) && Fits(e, entries, name, target)
  {
    var all := entries + [e];
    assert all[..|entries|] == entries;
    assert FitsAt(all, |entries|, name, target) <==> Fits(e, entries, name, target);
    forall i | 0 <= i < |entries| ensures FitsAt(all, i, name, target) <==> FitsAt(entries, i, name, target) {
      assert all[..i] == entries[..i];
    }
  }

  /** An action needs its column, unless it would leave zero alone. */
  predicate Stands(a: Action, columns: nat) { a.col <= columns || (a.Rename? && a.nonzero) }

  predicate AllStand(acts: seq<Action>, columns: nat) { forall i :: 0 <= i < |acts| ==> Stands(acts[i], columns) }

  lemma {:induction false} ActAllStands(acts: seq<Action>, row: Row, maps: Maps, next: Next)
    requires forall a :: a in acts ==> a.col >= 1
    ensures ActAllRow(acts, row, maps, next).Some? <==> AllStand(acts, |row|)
    ensures ActAllRow(acts, row, maps, next).Some? ==> |ActAllRow(acts, row, maps, next).value.0| == |row|
    decreases |acts|
  {
    if acts != [] {
      var before := acts[..|acts| - 1];
      ActAllStands(before, row, maps, next);
      assert AllStand(acts, |row|) <==> AllStand(before, |row|) && Stands(acts[|acts| - 1], |row|) by {
        assert forall i :: 0 <= i < |before| ==> acts[i] == before[i];
      }
    }
  }

  lemma ActionsStand(tt: TableType, target: Target, naming: seq<Action>, pet: string, columns: nat)
    requires |naming| <= 1 && forall a :: a in naming ==> a.col >= 1
    ensures AllStand(Actions(tt, target, naming, pet), columns) <==>
              columns >= Needed(tt) && (tt == CHARACTER && naming != [] ==> Stands(naming[0], columns))
  {
    var acts := Actions(tt, target, naming, pet);
    assert acts[0] in acts;
    if |acts| > 1 { assert acts[1] in acts; }
    if |acts| > 2 { assert acts[2] in acts; }
  }

  lemma RowLoads(e: Entry, s: Session, target: Target, next: Next)
    ensures LoadRow(e.table, e.row, s, target, next).Some? <==>
              match TypeOf(e.table)
              case None => false
              case Some(tt) =>
                && |e.row| >= Needed(tt) && (tt == CHARACTER ==> CanBeNamed(e.row, s.name, target))
                && (tt == PET_TABLE ==> PetId(e) in s.pets.ids)
  {
    if TypeOf(e.table).Some? {
      var tt := TypeOf(e.table).value;
      var pets := PetsAfter(tt, s.pets, Column(e.row, 1), target);
      if pets.Some? {
        var naming := NameActions(s.name, NameIn(tt, e.row), target);
        ActionsStand(tt, target, naming, pets.value.number, |e.row|);
        ActAllStands(Actions(tt, target, naming, pets.value.number), e.row, s.maps, next);
      }
    }
  }

  /** Exactly the pets that have had their line have a number. */
  lemma {:induction false} PetsSeenExactly(lines: seq<Line>, name: string, target: Target, next: Next, pet: nat, x: nat)
    requires LoadLines(lines, Begin(name, target, pet), target, next).Some?
    ensures x in LoadLines(lines, Begin(name, target, pet), target, next).value.session.pets.ids
            <==> SeenPet(Entries(lines), x)
    decreases |lines|
  {
    if lines != [] {
      var rest, l := lines[..|lines| - 1], lines[|lines| - 1];
      assert Entries(lines) == if l.Insert? then Entries(rest) + [l.e] else Entries(rest);
      PetsSeenExactly(rest, name, target, next, pet, x);
      var p := LoadLines(rest, Begin(name, target, pet), target, next).value;
      if l.Insert? {
        RowSees(l.e, p.session, target, next, x);
        SeenSnoc(Entries(rest), l.e, x);
      } else {
        OtherLineKeeps(l, p, target, next);
      }
    }
  }

  lemma RowSees(e: Entry, s: Session, target: Target, next: Next, x: nat)
    requires LoadRow(e.table, e.row, s, target, next).Some?
    ensures x in LoadRow(e.table, e.row, s, target, next).value.1.pets.ids <==>
            x in s.pets.ids || (IsPet(e) && PetId(e) == x)
  {
  }

  lemma SeenSnoc(entries: seq<Entry>, e: Entry, x: nat)
    ensures SeenPet(entries + [e], x) <==> SeenPet(entries, x) || (IsPet(e) && PetId(e) == x)
  {
    var all := entries + [e];
    assert all[|entries|] == e && forall i :: 0 <= i < |entries| ==> all[i] == entries[i];
  }

  /** Exactly those dumps load whose rows all do behind the ones before them. */
  lemma {:induction false} LoadsExactly(lines: seq<Line>, name: string, target: Target, next: Next, pet: nat)
    requires GoodLines(lines) && CleanTarget(target) && Clean(name)
    ensures LoadLines(lines, Begin(name, target, pet), target, next).Some? <==> AllFit(Entries(lines), name, target)
    decreases |lines|
  {
    if lines != [] {
      var rest, l := lines[..|lines| - 1], lines[|lines| - 1];
      assert Entries(lines) == if l.Insert? then Entries(rest) + [l.e] else Entries(rest);
      LoadsExactly(rest, name, target, next, pet);
      var before := LoadLines(rest, Begin(name, target, pet), target, next);
      if l.Insert? {
        AllFitSnoc(Entries(rest), l.e, name, target);
        if before.Some? {
          CharacterLinesFollow(rest, name, target, next, pet);
          PetsSeenExactly(rest, name, target, next, pet, PetId(l.e));
          RowLoads(l.e, before.value.session, target, next);
        }
      }
    }
  }

  // ----- Which numbers pets get -----

  /** The numbers the server gives, one after the other, each free for a pet. */
  function Nth(target: Target, pet: nat, k: nat): nat {
    target.freePet(if k == 0 then pet else Nth(target, pet, k - 1) + 1)
  }

  /** The pet the last line about a pet itself is about. */
  function LastPet(entries: seq<Entry>): string {
    if entries == [] then ""
    else if IsPet(entries[|entries| - 1]) then Buffered(Column(entries[|entries| - 1].row, 1))
    else LastPet(entries[..|entries| - 1])
  }

  /** How often such a line is about another pet than the one before. */
  function Changes(entries: seq<Entry>): nat {
    if entries == [] then 0
    else
      var before, e := entries[..|entries| - 1], entries[|entries| - 1];
      Changes(before)
      + if IsPet(e) && LastPet(before) != "" && Buffered(Column(e.row, 1)) != LastPet(before) then 1 else 0
  }

  /** A pet that has its first line at i has the number that comes with it. */
  ghost predicate FirstGets(entries: seq<Entry>, i: nat, ids: map<nat, nat>, target: Target, pet: nat)
    requires i < |entries|
  {
    var x := PetId(entries[i]);
    IsPet(entries[i]) && !SeenPet(entries[..i], x) ==>
      x in ids && ids[x] == Nth(target, pet, Changes(entries[..i + 1]))
  }

  ghost predicate PetsGet(entries: seq<Entry>, ids: map<nat, nat>, target: Target, pet: nat) {
    forall i {:trigger FirstGets(entries, i, ids, target, pet)} :: 0 <= i < |entries| ==>
      FirstGets(entries, i, ids, target, pet)
  }

  ghost predicate InTurn(entries: seq<Entry>, p: Pets, target: Target, pet: nat) {
    AtTurn(p, LastPet(entries), Changes(entries), target, pet) && AreSeen(entries, p.ids.Keys)
  }

  predicate AtTurn(p: Pets, last: string, n: nat, target: Target, pet: nat) {
    && p.last == last && p.next == Nth(target, pet, n) + 1
    && if last == "" then p.ids == map[] && n == 0 && p.number == ToString(Nth(target, pet, 0))
       else Atoi(last) in p.ids
  }

  ghost predicate AreSeen(entries: seq<Entry>, ids: set<nat>) { forall x :: x in ids <==> SeenPet(entries, x) }

  lemma SeenGoOn(entries: seq<Entry>, e: Entry, ids: set<nat>)
    requires AreSeen(entries, ids)
    ensures AreSeen(entries + [e], ids + if IsPet(e) then {PetId(e)} else {})
  {
    forall x ensures SeenPet(entries + [e], x) <==> SeenPet(entries, x) || (IsPet(e) && PetId(e) == x) {
      SeenSnoc(entries, e, x);
    }
  }

  lemma OneMoreChange(entries: seq<Entry>, e: Entry)
    ensures var id, last := Buffered(Column(e.row, 1)), LastPet(entries);
            && LastPet(entries + [e]) == (if IsPet(e) then id else last)
            && Changes(entries + [e]) == Changes(entries) + if IsPet(e) && last != "" && id != last then 1 else 0
  {
    assert (entries + [e])[..|entries|] == entries;
  }

  lemma PetTakesItsTurn(p: Pets, id: string, target: Target, pet: nat, n: nat)
    requires id != "" && AtTurn(p, p.last, n, target, pet)
    ensures var p' := AfterPet(p, id, target);
            var n' := n + if p.last != "" && id != p.last then 1 else 0;
            && AtTurn(p', id, n', target, pet)
            && Grown(p.ids, p'.ids) && p'.ids.Keys == p.ids.Keys + {Atoi(id)}
            && (Atoi(id) !in p.ids ==> p'.ids[Atoi(id)] == Nth(target, pet, n'))
  {
    AtoiToString(Nth(target, pet, n));
    AtoiToString(Nth(target, pet, n + 1));
  }

  lemma OtherRowsWait(tt: TableType, p: Pets, column: string, target: Target, pet: nat, n: nat)
    requires tt != PET && AtTurn(p, p.last, n, target, pet) && PetsAfter(tt, p, column, target).Some?
    ensures var p' := PetsAfter(tt, p, column, target).value; p'.ids == p.ids && AtTurn(p', p.last, n, target, pet)
  {
  }

  lemma RowTakesItsTurn(e: Entry, p: Pets, p': Pets, target: Target, pet: nat, n: nat, n': nat)
    requires TypeOf(e.table).Some? && (IsPet(e) ==> Column(e.row, 1) != "") && AtTurn(p, p.last, n, target, pet)
    requires PetsAfter(TypeOf(e.table).value, p, Column(e.row, 1), target) == Some(p')
    requires n' == n + if IsPet(e) && p.last != "" && Buffered(Column(e.row, 1)) != p.last then 1 else 0
    ensures AtTurn(p', if IsPet(e) then Buffered(Column(e.row, 1)) else p.last, n', target, pet) && Grown(p.ids, p'.ids)
    ensures p'.ids.Keys == p.ids.Keys + if IsPet(e) then {PetId(e)} else {}
    ensures IsPet(e) && PetId(e) !in p.ids ==> p'.ids[PetId(e)] == Nth(target, pet, n')
  {
    if IsPet(e) {
      PetTakesItsTurn(p, Buffered(Column(e.row, 1)), target, pet, n);
    } else {
      OtherRowsWait(TypeOf(e.table).value, p, Column(e.row, 1), target, pet, n);
    }
  }

  lemma PetsGetOn(entries: seq<Entry>, e: Entry, ids: map<nat, nat>, ids': map<nat, nat>, target: Target, pet: nat)
    requires PetsGet(entries, ids, target, pet) && Grown(ids, ids')
    requires IsPet(e) && !SeenPet(entries, PetId(e)) ==>
               PetId(e) in ids' && ids'[PetId(e)] == Nth(target, pet, Changes(entries + [e]))
    ensures PetsGet(entries + [e], ids', target, pet)
  {
    var all := entries + [e];
    forall i | 0 <= i < |all| ensures FirstGets(all, i, ids', target, pet) {
      if i < |entries| {
        assert FirstGets(entries, i, ids, target, pet);
        assert all[..i] == entries[..i] && all[..i + 1] == entries[..i + 1];
      } else {
        assert all[..i] == entries && all[..i + 1] == all;
      }
    }
  }

  /** A pet gets a number when its first line comes: the one the server gives when it has been asked as often as the
      lines about pets have gone over to another one. No number is skipped. */
  lemma {:induction false} PetNumbersFollow(lines: seq<Line>, name: string, target: Target, next: Next, pet: nat)
    requires LoadLines(lines, Begin(name, target, pet), target, next).Some?
    requires forall i :: 0 <= i < |lines| && lines[i].Insert? && IsPet(lines[i].e) ==> Column(lines[i].e.row, 1) != ""
    ensures var pets := LoadLines(lines, Begin(name, target, pet), target, next).value.session.pets;
            InTurn(Entries(lines), pets, target, pet) && PetsGet(Entries(lines), pets.ids, target, pet)
    decreases |lines|
  {
    if lines != [] {
      var rest, l := lines[..|lines| - 1], lines[|lines| - 1];
      assert Entries(lines) == if l.Insert? then Entries(rest) + [l.e] else Entries(rest);
      PetNumbersFollow(rest, name, target, next, pet);
      var p := LoadLines(rest, Begin(name, target, pet), target, next).value;
      if l.Insert? {
        NumbersGoOn(l.e, Entries(rest), p.session, target, next, pet);
      } else {
        OtherLineKeeps(l, p, target, next);
      }
    }
  }

  lemma NumbersGoOn(e: Entry, entries: seq<Entry>, s: Session, target: Target, next: Next, pet: nat)
    requires LoadRow(e.table, e.row, s, target, next).Some? && (IsPet(e) ==> Column(e.row, 1) != "")
    requires InTurn(entries, s.pets, target, pet) && PetsGet(entries, s.pets.ids, target, pet)
    ensures var pets := LoadRow(e.table, e.row, s, target, next).value.1.pets;
            InTurn(entries + [e], pets, target, pet) && PetsGet(entries + [e], pets.ids, target, pet)
  {
    var pets := LoadRow(e.table, e.row, s, target, next).value.1.pets;
    OneMoreChange(entries, e);
    RowTakesItsTurn(e, s.pets, pets, target, pet, Changes(entries), Changes(entries + [e]));
    SeenGoOn(entries, e, s.pets.ids.Keys);
    PetsGetOn(entries, e, s.pets.ids, pets.ids, target, pet);
  }

  // ----- Whole dumps -----

  /** Over a whole dump, each kind of id is renamed one to one onto the ids from the next free one on, and every
      reference in every line and table is renamed by the same map, those to pets by theirs; the pets' own lines
      bear these numbers, too, if no two are about the same pet. The character's line bears the new account and the
      name in force. Carried out are the guards as they are and the rows so changed, in order. */
  lemma DumpRenames(lines: seq<Line>, name: string, target: Target, next: Next, pet: nat)
    requires GoodLines(lines) && CleanTarget(target) && Clean(name)
    requires LoadLines(lines, Begin(name, target, pet), target, next).Some?
    ensures var p := LoadLines(lines, Begin(name, target, pet), target, next).value;
            && AllRenamings(p.session.maps, next)
            && DumpFollows(Entries(lines), Entries(p.done), target.guid, p.session.maps, p.session.pets.ids)
            && (DistinctPets(Entries(lines)) ==> PetsBearTheirs(Entries(lines), Entries(p.done), p.session.pets.ids))
            && CharactersFollow(Entries(lines), Entries(p.done), name, target) && AllCarriedOut(Kept(lines), p.done)
  {
    LinesFollow(lines, name, target, next, pet);
    CharacterLinesFollow(lines, name, target, next, pet);
    KeptLinesFollow(lines, Begin(name, target, pet), target, next);
    if DistinctPets(Entries(lines)) { PetLinesFollow(lines, name, target, next, pet); }
  }

  /** The rows of a query result as they are printed. */
  function Printed(results: seq<Entry>): seq<Entry> {
    seq(|results|, i requires 0 <= i < |results| => Entry(results[i].table, EscapeRow(results[i].row)))
  }

  lemma PrintedAreLoadable(results: seq<Entry>)
    requires forall i :: 0 <= i < |results| ==> Loadable(results[i])
    ensures forall i :: 0 <= i < |results| ==> Loadable(Printed(results)[i])
  {
    forall i | 0 <= i < |results| ensures Loadable(Printed(results)[i]) {
      var e := results[i];
      if TypeOf(e.table).Some? { EscapedRowIsClean(e.row, Reach(TypeOf(e.table).value)); }
    }
  }

  /** What the server has written it loads again as text, exactly if all its rows fit - or refuses as broken - and
      every id in it is renamed by one map. */
  lemma WrittenDumpLoads(guard: Option<string>, results: seq<Entry>, name: string, target: Target, next: Next, pet: nat)
    requires forall i :: 0 <= i < |results| ==> Loadable(results[i])
    requires CleanTarget(target) && Clean(name)
    ensures var entries, begin := Printed(results), Begin(name, target, pet);
            var lines := Written(guard, entries);
            (LoadLines(lines, begin, target, next).Some? <==> AllFit(entries, name, target)) &&
            match LoadLines(lines, begin, target, next)
            case None => LoadAll(TextsOf(lines), begin, target, next) == Broken
            case Some(p) =>
              && LoadAll(TextsOf(lines), begin, target, next) == Done(Progress(TextsOf(p.done), p.session))
              && AllRenamings(p.session.maps, next)
              && DumpFollows(entries, Entries(p.done), target.guid, p.session.maps, p.session.pets.ids)
              && (DistinctPets(entries) ==> PetsBearTheirs(entries, Entries(p.done), p.session.pets.ids))
              && CharactersFollow(entries, Entries(p.done), name, target) && AllCarriedOut(Kept(lines), p.done)
  {
    PrintedAreLoadable(results);
    WrittenLoads(Written(guard, Printed(results)), guard, Printed(results), name, target, next, pet);
  }

  lemma WrittenLoads(lines: seq<Line>, guard: Option<string>, entries: seq<Entry>, name: string, target: Target,
                     next: Next, pet: nat)
    requires forall i :: 0 <= i < |entries| ==> Loadable(entries[i])
    requires CleanTarget(target) && Clean(name) && lines == Written(guard, entries)
    ensures Entries(lines) == entries
    ensures LoadLines(lines, Begin(name, target, pet), target, next).Some? <==> AllFit(entries, name, target)
    ensures SameLoad(LoadAll(TextsOf(lines), Begin(name, target, pet), target, next),
                     LoadLines(lines, Begin(name, target, pet), target, next))
    ensures match LoadLines(lines, Begin(name, target, pet), target, next)
            case None => true
            case Some(p) =>
              && AllRenamings(p.session.maps, next)
              && DumpFollows(entries, Entries(p.done), target.guid, p.session.maps, p.session.pets.ids)
              && (DistinctPets(entries) ==> PetsBearTheirs(entries, Entries(p.done), p.session.pets.ids))
              && CharactersFollow(entries, Entries(p.done), name, target) && AllCarriedOut(Kept(lines), p.done)
  {
    WrittenIsGood(guard, entries);
    AtoiToString(target.freePet(pet));
    LoadsExactly(lines, name, target, next, pet);
    DumpAgrees(lines, Begin(name, target, pet), target, next);
    if LoadLines(lines, Begin(name, target, pet), target, next).Some? {
      DumpRenames(lines, name, target, next, pet);
    }
  }

  /** Not so if a second line of a pet comes behind a line of what another one has: pet 6 gets the number of pet 5. */
  lemma SecondLineOfAPet(name: string, target: Target, next: Next, pet: nat)
    requires CleanTarget(target)
    ensures var lines := [OwnLine("5"), OwnLine("6"), SpellLine("5"), OwnLine("6")];
            var r := LoadLines(lines, Begin(name, target, pet), target, next);
            && r.Some? && 5 in r.value.session.pets.ids && 6 in r.value.session.pets.ids && |r.value.done| == 4
            && var last := r.value.done[3];
               last.Insert? && Column(last.e.row, 1) == ToString(r.value.session.pets.ids[5])
               && Column(last.e.row, 1) != ToString(r.value.session.pets.ids[6])
  {
    FiveAndSix();
    var s0 := Begin(name, target, pet);
    var p1 := AfterOwn("5", Progress([], s0), target);
    var p2 := AfterOwn("6", p1, target);
    PetsOfTwo(s0.pets, p1.session.pets, p2.session.pets, target, pet);
    var p3 := AfterSpell(p2, ToString(p2.session.pets.ids[5]));
    var p4 := AfterOwn("6", p3, target);
    OwnLineLoads("5", Progress([], s0), target, next);
    OwnLineLoads("6", p1, target, next);
    SpellLoads(p2, target, next);
    OwnLineLoads("6", p3, target, next);
    FourLines([OwnLine("5"), OwnLine("6"), SpellLine("5"), OwnLine("6")], s0, [Progress([], s0), p1, p2, p3, p4],
              target, next);
  }

  function OwnLine(id: string): Line { Insert(Entry("character_pet", [Some(id), Some(""), Some("")])) }

  function SpellLine(id: string): Line { Insert(Entry("pet_spell", [Some(id)])) }

  function AfterOwn(id: string, p: Progress<Line>, target: Target): Progress<Line> {
    var pets := AfterPet(p.session.pets, id, target);
    var out := [Some(pets.number), Some(""), Some(target.guid)];
    Progress(p.done + [Insert(Entry("character_pet", out))], p.session.(pets := pets))
  }

  function AfterSpell(p: Progress<Line>, number: string): Progress<Line> {
    Progress(p.done + [SpellLine(number)], p.session.(pets := p.session.pets.(number := number)))
  }

  lemma FiveAndSix()
    ensures Atoi("5") == 5 && Atoi("6") == 6
  {
    assert "5"[1..] == "" && "6"[1..] == "";
    assert AtoiFrom("5", 0) == AtoiFrom("", 5) && AtoiFrom("6", 0) == AtoiFrom("", 6);
  }

  lemma PetsOfTwo(p0: Pets, p1: Pets, p2: Pets, target: Target, pet: nat)
    requires CleanTarget(target) && p0 == NoPets(target, pet) && Atoi("5") == 5 && Atoi("6") == 6
    requires p1 == AfterPet(p0, "5", target) && p2 == AfterPet(p1, "6", target)
    ensures 5 in p2.ids && 6 in p2.ids && ToString(p2.ids[5]) != ToString(p2.ids[6]) && p2.last == "6"
  {
    NoPetsNumbered(target, pet);
    PetIsNumbered(p0, "5", target);
    PetIsNumbered(p1, "6", target);
    AtoiToString(p2.ids[5]);
    AtoiToString(p2.ids[6]);
  }

  lemma OwnLineLoads(id: string, p: Progress<Line>, target: Target, next: Next)
    requires |id| == 1
    ensures LoadLine(OwnLine(id), p, target, next) == Some(AfterOwn(id, p, target))
  {
    var row := OwnLine(id).e.row;
    var number := AfterPet(p.session.pets, id, target).number;
    assert TypeOf("character_pet") == Some(PET);
    TwoSet(number, target.guid, row, p.session.maps, next);
    assert row[0 := Some(number)][2 := Some(target.guid)] == [Some(number), Some(""), Some(target.guid)];
  }

  lemma SpellLoads(p: Progress<Line>, target: Target, next: Next)
    requires Atoi("5") == 5 && 5 in p.session.pets.ids
    ensures LoadLine(SpellLine("5"), p, target, next) == Some(AfterSpell(p, ToString(p.session.pets.ids[5])))
  {
    var row, number := [Some("5")], ToString(p.session.pets.ids[5]);
    assert TypeOf("pet_spell") == Some(PET_TABLE);
    var acts := [SetTo(1, number)];
    assert acts[..0] == [];
    assert ActAllRow(acts, row, p.session.maps, next) == ActRow(SetTo(1, number), row, p.session.maps, next);
    assert row[0 := Some(number)] == [Some(number)];
  }

  lemma OneMoreLine(lines: seq<Line>, l: Line, s: Session, p: Progress<Line>, target: Target, next: Next)
    requires LoadLines(lines, s, target, next) == Some(p)
    ensures LoadLines(lines + [l], s, target, next) == LoadLine(l, p, target, next)
  {
    assert (lines + [l])[..|lines|] == lines;
  }

  lemma FourLines(ls: seq<Line>, s: Session, ps: seq<Progress<Line>>, target: Target, next: Next)
    requires |ls| == 4 && |ps| == 5 && ps[0] == Progress([], s)
    requires forall i :: 0 <= i < 4 ==> LoadLine(ls[i], ps[i], target, next) == Some(ps[i + 1])
    ensures LoadLines(ls, s, target, next) == Some(ps[4])
  {
    var i := 0;
    while i < 4
      invariant 0 <= i <= 4 && LoadLines(ls[..i], s, target, next) == Some(ps[i])
    {
      OneMoreLine(ls[..i], ls[i], s, ps[i], target, next);
      assert ls[..i + 1] == ls[..i] + [ls[i]];
      i := i + 1;
    }
    assert ls[..4] == ls;
  }

  /** Different pets get different numbers, unless a line about a pet does not say which. */
  lemma {:induction false} PetsAreDistinct(lines: seq<Line>, name: string, target: Target, next: Next, pet: nat)
    requires CleanTarget(target) && LoadLines(lines, Begin(name, target, pet), target, next).Some?
    requires forall i :: 0 <= i < |lines| && lines[i].Insert? && lines[i].e.table == "character_pet" ==>
               Column(lines[i].e.row, 1) != ""
    ensures Numbered(LoadLines(lines, Begin(name, target, pet), target, next).value.session.pets)
    decreases |lines|
  {
    if lines == [] {
      NoPetsNumbered(target, pet);
    } else {
      var rest, l := lines[..|lines| - 1], lines[|lines| - 1];
      PetsAreDistinct(rest, name, target, next, pet);
      var p := LoadLines(rest, Begin(name, target, pet), target, next).value;
      if l.Insert? { PetsStayNumbered(TypeOf(l.e.table).value, p.session.pets, Column(l.e.row, 1), target); }
    }
  }

  /** Two references to one kind of id: the new ids are equal exactly when the old ones were, zero is
      left alone where asked, and every new id is below where the generator ends up. */
  lemma ReferencesPreserved(a: Action, row: Row, out: Row, b: Action, row': Row, out': Row, maps: Maps, next: Next)
    requires AllRenamings(maps, next) && a.Rename? && b.Rename? && a.which == b.which
    requires 1 <= a.col <= |row| == |out| && 1 <= b.col <= |row'| == |out'|
    requires Follows(a, row, out, maps) && Follows(b, row', out', maps)
    requires !(a.nonzero && Atoi(Column(row, a.col)) == 0) && !(b.nonzero && Atoi(Column(row', b.col)) == 0)
    ensures out[a.col - 1] == out'[b.col - 1] <==> Atoi(Column(row, a.col)) == Atoi(Column(row', b.col))
    ensures next.Get(a.which) <= Atoi(Column(out, a.col)) < NextAfter(maps, next).Get(a.which)
  {
    var m := maps.Get(a.which);
    var x, y := Atoi(Column(row, a.col)), Atoi(Column(row', b.col));
    AtoiToString(m[x]);
    AtoiToString(m[y]);
    assert Renaming(m, next.Get(a.which));
  }
}
