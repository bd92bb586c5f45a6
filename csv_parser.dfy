/** The export parser: header normalisation, first-match column renaming,
    record building and the metadata counts of `parse_instagram_csv`. */
module CsvParser {
  import opened AsciiText
  import opened Comprehensions

  datatype Option<T> = None | Some(value: T)

  /** One account of an export. Every field is always present; a value the
      export does not give is the empty string. */
  datatype Record = Record(
    userId: string,
    username: string,
    fullname: string,
    followedByYou: string,
    isVerified: string,
    profileUrl: string)

  /** A cell as the CSV reader hands it over; `None` is a missing value
      (pandas' NaN). */
  type Cell = Option<string>

  /** A tokenised export: its header row and its data rows. A row shorter
      than the header is missing its last cells. */
  datatype Table = Table(header: seq<string>, rows: seq<seq<Cell>>)

  /** The summary counts returned beside the records. */
  datatype Metadata = Metadata(
    total: nat,
    followingBack: nat,
    notFollowingBack: nat,
    verified: nat)

  /** Each canonical column with its accepted spellings, in the order they
      are tried. */
  const ColumnMap: seq<(string, seq<string>)> := [
    ("user_id", ["user_id", "userid", "id"]),
    ("username", ["username", "user_name", "handle"]),
    ("fullname", ["fullname", "full_name", "name", "display_name"]),
    ("followed_by_you", ["followed_by_you", "following", "you_follow"]),
    ("is_verified", ["is_verified", "verified"]),
    ("profile_url", ["profile_url", "url", "profile"]),
    ("avatar_url", ["avatar_url", "avatar", "picture"])
  ]

  /** The canonical columns a record is built from, in record order
      (`avatar_url` is renamed but never read). */
  const RecordFields: seq<string> :=
    ["user_id", "username", "fullname", "followed_by_you", "is_verified", "profile_url"]

  predicate Distinct(s: seq<string>) {
    forall i, j :: 0 <= i < j < |s| ==> s[i] != s[j]
  }

  /** The canonical columns a record is built from. */
  datatype Column = UserId | Username | Fullname | FollowedByYou | IsVerified | ProfileUrl

  /** The canonical name of a column. */
  function Name(c: Column): string {
    match c
    case UserId => "user_id"
    case Username => "username"
    case Fullname => "fullname"
    case FollowedByYou => "followed_by_you"
    case IsVerified => "is_verified"
    case ProfileUrl => "profile_url"
  }

  /** The field of `r` that column `c` fills. */
  function Field(r: Record, c: Column): string {
    match c
    case UserId => r.userId
    case Username => r.username
    case Fullname => r.fullname
    case FollowedByYou => r.followedByYou
    case IsVerified => r.isVerified
    case ProfileUrl => r.profileUrl
  }

  /** The two flag columns are upper-cased, the other columns kept as read. */
  function Cased(c: Column, value: string): string {
    if c == FollowedByYou || c == IsVerified then Upper(value) else value
  }

  // ----- Column normaliser -----

  /** `df.columns.str.strip().str.lower().str.replace(' ', '_')`. */
  function NormalizeHeaders(header: seq<string>): (columns: seq<string>)
    ensures |columns| == |header|
  {
    seq(|header|, i requires 0 <= i < |header| => NormalizeHeader(header[i]))
  }

  /** The index of the first of `variants` that is among `columns`. */
  function FirstPresent(variants: seq<string>, columns: seq<string>): (r: Option<nat>)
    ensures r.Some? ==> r.value < |variants| && variants[r.value] in columns
    ensures r.Some? ==> forall j :: 0 <= j < r.value ==> variants[j] !in columns
    ensures r.None? ==> forall j :: 0 <= j < |variants| ==> variants[j] !in columns
  {
    if variants == [] then None
    else if variants[0] in columns then Some(0)
    else match FirstPresent(variants[1..], columns)
         case Some(k) => Some(k + 1)
         case None => None
  }

  /** The spelling that the inner loop stops at, if any. */
  function Chosen(variants: seq<string>, columns: seq<string>): (r: Option<string>)
    ensures r.Some? ==> r.value in variants && r.value in columns
    ensures r.None? ==> forall v :: v in variants ==> v !in columns
  {
    match FirstPresent(variants, columns)
    case Some(k) => Some(variants[k])
    case None => None
  }

  /** The map after one more entry of the rename loop: its chosen spelling,
      if any, is renamed to its canonical name. */
  function Extend(m: map<string, string>, name: string, chosen: Option<string>): map<string, string> {
    match chosen
    case Some(v) => m[v := name]
    case None => m
  }

  /** The rename map the nested loop builds over `entries`, one entry after
      the other: each entry contributes its chosen spelling, if it has one. */
  function RenameMapOf(entries: seq<(string, seq<string>)>, columns: seq<string>): (m: map<string, string>)
    ensures forall v :: v in m ==> v in columns
    ensures forall v :: v in m ==>
              exists e :: 0 <= e < |entries| && entries[e].0 == m[v] && Chosen(entries[e].1, columns) == Some(v)
  {
    if entries == [] then map[]
    else
      var prefix := entries[..|entries| - 1];
      var m := RenameMapOf(prefix, columns);
      var last := entries[|entries| - 1];
      assert forall e :: 0 <= e < |prefix| ==> prefix[e] == entries[e];
      Extend(m, last.0, Chosen(last.1, columns))
  }

  /** No spelling is renamed to a name that no entry has. */
  lemma {:induction false} NameNotRenamedTo(entries: seq<(string, seq<string>)>, columns: seq<string>, name: string)
    requires forall i :: 0 <= i < |entries| ==> entries[i].0 != name
    ensures forall v :: v in RenameMapOf(entries, columns) ==> RenameMapOf(entries, columns)[v] != name
  {
    if entries != [] {
      var prefix := entries[..|entries| - 1];
      assert forall i :: 0 <= i < |prefix| ==> prefix[i] == entries[i];
      NameNotRenamedTo(prefix, columns, name);
    }
  }

  function RenameMap(columns: seq<string>): map<string, string> {
    RenameMapOf(ColumnMap, columns)
  }

  /** `df.rename(columns=m)`: a column named in `m` takes its new name. */
  function RenameColumns(columns: seq<string>, m: map<string, string>): (r: seq<string>)
    ensures |r| == |columns|
  {
    seq(|columns|, i requires 0 <= i < |columns| =>
      if columns[i] in m then m[columns[i]] else columns[i])
  }

  /** The column names of an export after normalising and renaming. */
  function ParsedColumns(header: seq<string>): seq<string> {
    var columns := NormalizeHeaders(header);
    RenameColumns(columns, RenameMap(columns))
  }

  /** What the proofs about renaming need of a column table: distinct
      canonical names, no spelling shared by two entries or repeated within
      one, and each entry's first spelling its canonical name. */
  ghost predicate WellFormed(entries: seq<(string, seq<string>)>) {
    (forall i, j :: 0 <= i < j < |entries| ==> entries[i].0 != entries[j].0)
    && (forall i :: 0 <= i < |entries| ==> OwnsVariants(entries, i))
    && (forall i, a, b :: 0 <= i < |entries| && 0 <= a < b < |entries[i].1| ==>
          entries[i].1[a] != entries[i].1[b])
    && (forall i :: 0 <= i < |entries| ==> |entries[i].1| > 0 && entries[i].1[0] == entries[i].0)
  }

  /** No spelling of entry `i` is a spelling of another entry. */
  ghost predicate OwnsVariants(entries: seq<(string, seq<string>)>, i: int)
    requires 0 <= i < |entries|
  {
    forall j, v :: 0 <= j < |entries| && j != i && v in entries[i].1 ==> v !in entries[j].1
  }

  // The facts about the literal table are proved one entry at a time: a
  // single proof over all seven entries is too large for the solver.
  lemma ColumnMapOwns0() ensures OwnsVariants(ColumnMap, 0) {}
  lemma ColumnMapOwns1() ensures OwnsVariants(ColumnMap, 1) {}
  lemma ColumnMapOwns2() ensures OwnsVariants(ColumnMap, 2) {}
  lemma ColumnMapOwns3() ensures OwnsVariants(ColumnMap, 3) {}
  lemma ColumnMapOwns4() ensures OwnsVariants(ColumnMap, 4) {}
  lemma ColumnMapOwns5() ensures OwnsVariants(ColumnMap, 5) {}
  lemma ColumnMapOwns6() ensures OwnsVariants(ColumnMap, 6) {}

  lemma ColumnMapNamesDistinct()
    ensures forall i, j :: 0 <= i < j < |ColumnMap| ==> ColumnMap[i].0 != ColumnMap[j].0
  {
  }

  lemma ColumnMapSpellingsDistinct()
    ensures forall i, a, b :: 0 <= i < |ColumnMap| && 0 <= a < b < |ColumnMap[i].1| ==>
              ColumnMap[i].1[a] != ColumnMap[i].1[b]
  {
  }

  lemma ColumnMapHeads()
    ensures forall i :: 0 <= i < |ColumnMap| ==> |ColumnMap[i].1| > 0 && ColumnMap[i].1[0] == ColumnMap[i].0
  {
  }

  lemma ColumnMapWellFormed()
    ensures WellFormed(ColumnMap)
  {
    forall i | 0 <= i < |ColumnMap|
      ensures OwnsVariants(ColumnMap, i)
    {
      if i == 0 { ColumnMapOwns0(); }
      else if i == 1 { ColumnMapOwns1(); }
      else if i == 2 { ColumnMapOwns2(); }
      else if i == 3 { ColumnMapOwns3(); }
      else if i == 4 { ColumnMapOwns4(); }
      else if i == 5 { ColumnMapOwns5(); }
      else { ColumnMapOwns6(); }
    }
    ColumnMapNamesDistinct();
    ColumnMapSpellingsDistinct();
    ColumnMapHeads();
  }

  /** Every spelling of entry `e` is a plain name. */
  ghost predicate SpellingsPlain(entries: seq<(string, seq<string>)>, e: int)
    requires 0 <= e < |entries|
  {
    forall k :: 0 <= k < |entries[e].1| ==> IsPlainName(entries[e].1[k])
  }

  // One entry at a time, as above; `SevenEntriesPlain` then combines the
  // seven facts over a table passed as a parameter.
  lemma ColumnMapPlain0() ensures SpellingsPlain(ColumnMap, 0) {}
  lemma ColumnMapPlain1() ensures SpellingsPlain(ColumnMap, 1) {}
  lemma ColumnMapPlain2() ensures SpellingsPlain(ColumnMap, 2) {}
  lemma ColumnMapPlain3() ensures SpellingsPlain(ColumnMap, 3) {}
  lemma ColumnMapPlain4() ensures SpellingsPlain(ColumnMap, 4) {}
  lemma ColumnMapPlain5() ensures SpellingsPlain(ColumnMap, 5) {}
  lemma ColumnMapPlain6() ensures SpellingsPlain(ColumnMap, 6) {}

  lemma ColumnMapSpellingsPlain()
    ensures forall e, k :: 0 <= e < |ColumnMap| && 0 <= k < |ColumnMap[e].1| ==> IsPlainName(ColumnMap[e].1[k])
  {
    ColumnMapPlain0();
    ColumnMapPlain1();
    ColumnMapPlain2();
    ColumnMapPlain3();
    ColumnMapPlain4();
    ColumnMapPlain5();
    ColumnMapPlain6();
    SevenEntriesPlain(ColumnMap);
  }

  lemma SevenEntriesPlain(entries: seq<(string, seq<string>)>)
    requires |entries| == 7
    requires SpellingsPlain(entries, 0) && SpellingsPlain(entries, 1) && SpellingsPlain(entries, 2)
    requires SpellingsPlain(entries, 3) && SpellingsPlain(entries, 4) && SpellingsPlain(entries, 5)
    requires SpellingsPlain(entries, 6)
    ensures forall e, k :: 0 <= e < |entries| && 0 <= k < |entries[e].1| ==> IsPlainName(entries[e].1[k])
  {
    forall e, k | 0 <= e < |entries| && 0 <= k < |entries[e].1|
      ensures IsPlainName(entries[e].1[k])
    {
      assert SpellingsPlain(entries, e);
    }
  }

  /** Every prefix of a well-formed table is well-formed. */
  lemma WellFormedPrefix(entries: seq<(string, seq<string>)>, n: nat)
    requires WellFormed(entries) && n <= |entries|
    ensures WellFormed(entries[..n])
  {
    var prefix := entries[..n];
    forall i | 0 <= i < n
      ensures OwnsVariants(prefix, i)
    {
      assert OwnsVariants(entries, i);
    }
  }

  /** First match wins: the only column that a well-formed table renames to
      the canonical name of entry `e` is the spelling chosen for `e`, and no
      column is renamed to it when none of its spellings is present. */
  lemma {:induction false} RenameMapOfFirstMatch(entries: seq<(string, seq<string>)>, columns: seq<string>, e: int)
    requires WellFormed(entries)
    requires 0 <= e < |entries|
    ensures forall v :: (v in RenameMapOf(entries, columns) && RenameMapOf(entries, columns)[v] == entries[e].0)
                        <==> Chosen(entries[e].1, columns) == Some(v)
    decreases |entries|
  {
    var n := |entries|;
    var prefix := entries[..n - 1];
    var m := RenameMapOf(prefix, columns);
    var last := entries[n - 1];
    assert forall i :: 0 <= i < |prefix| ==> prefix[i] == entries[i];
    if e < n - 1 {
      assert WellFormed(prefix) by { WellFormedPrefix(entries, n - 1); }
      RenameMapOfFirstMatch(prefix, columns, e);
      assert last.0 != entries[e].0;
      var chosen, chosenE := Chosen(last.1, columns), Chosen(entries[e].1, columns);
      assert chosen.Some? && chosenE.Some? ==> chosen.value != chosenE.value by {
        assert OwnsVariants(entries, n - 1);
      }
      ExtendKeepsOtherName(m, last.0, Chosen(last.1, columns), entries[e].0, Chosen(entries[e].1, columns));
    } else {
      assert forall i :: 0 <= i < |prefix| ==> prefix[i].0 != last.0;
      NameNotRenamedTo(prefix, columns, last.0);
      ExtendWithNewName(m, last.0, Chosen(last.1, columns));
    }
  }

  /** A later entry with another canonical name and another chosen spelling
      leaves the spellings renamed to `target` as they were. */
  lemma ExtendKeepsOtherName(m: map<string, string>, name: string, chosen: Option<string>,
                             target: string, chosenTarget: Option<string>)
    requires name != target
    requires chosen.Some? && chosenTarget.Some? ==> chosen.value != chosenTarget.value
    requires forall v :: (v in m && m[v] == target) <==> chosenTarget == Some(v)
    ensures forall v :: (v in Extend(m, name, chosen) && Extend(m, name, chosen)[v] == target)
                        <==> chosenTarget == Some(v)
  {
  }

  /** An entry whose canonical name no earlier entry used renames exactly its
      chosen spelling to that name. */
  lemma ExtendWithNewName(m: map<string, string>, name: string, chosen: Option<string>)
    requires forall v :: v in m ==> m[v] != name
    ensures forall v :: (v in Extend(m, name, chosen) && Extend(m, name, chosen)[v] == name)
                        <==> chosen == Some(v)
  {
  }

  /** First match wins for the parser's own column table: for each canonical
      column, the one header renamed to it is the earliest of its spellings,
      in list order, that the normalised headers contain; with none present,
      no header is renamed to it. */
  lemma RenameIsFirstMatch(columns: seq<string>, e: int)
    requires 0 <= e < |ColumnMap|
    ensures forall v :: (v in RenameMap(columns) && RenameMap(columns)[v] == ColumnMap[e].0)
                        <==> Chosen(ColumnMap[e].1, columns) == Some(v)
  {
    ColumnMapWellFormed();
    RenameMapOfFirstMatch(ColumnMap, columns, e);
  }

  /** A spelling listed after the one chosen for its canonical column keeps
      its own name, even when it is among the headers. */
  lemma LaterSpellingKeepsName(columns: seq<string>, e: int, j: int)
    requires 0 <= e < |ColumnMap|
    requires FirstPresent(ColumnMap[e].1, columns).Some?
    requires FirstPresent(ColumnMap[e].1, columns).value < j < |ColumnMap[e].1|
    ensures ColumnMap[e].1[j] !in RenameMap(columns)
  {
    ColumnMapWellFormed();
    LaterSpellingKeepsNameOf(ColumnMap, columns, e, j);
  }

  lemma LaterSpellingKeepsNameOf(entries: seq<(string, seq<string>)>, columns: seq<string>, e: int, j: int)
    requires WellFormed(entries)
    requires 0 <= e < |entries|
    requires FirstPresent(entries[e].1, columns).Some?
    requires FirstPresent(entries[e].1, columns).value < j < |entries[e].1|
    ensures entries[e].1[j] !in RenameMapOf(entries, columns)
  {
    var m := RenameMapOf(entries, columns);
    var k := FirstPresent(entries[e].1, columns).value;
    var v := entries[e].1[j];
    assert entries[e].1[k] != v by {
      assert forall a, b :: 0 <= a < b < |entries[e].1| ==> entries[e].1[a] != entries[e].1[b];
    }
    assert v in entries[e].1;
    forall e' | 0 <= e' < |entries| && e' != e
      ensures v !in entries[e'].1
    {
      assert OwnsVariants(entries, e);
    }
    assert Chosen(entries[e].1, columns) == Some(entries[e].1[k]);
  }

  /** Renaming never merges two headers: distinct normalised headers stay
      distinct after renaming, so a canonical name labels at most one column. */
  lemma RenamingKeepsColumnsDistinct(columns: seq<string>)
    requires Distinct(columns)
    ensures Distinct(RenameColumns(columns, RenameMap(columns)))
  {
    ColumnMapWellFormed();
    var m := RenameMap(columns);
    var r := RenameColumns(columns, m);
    forall i, j | 0 <= i < j < |r|
      ensures r[i] != r[j]
    {
      var ci, cj := columns[i], columns[j];
      if ci in m && cj in m {
        var e :| 0 <= e < |ColumnMap| && ColumnMap[e].0 == m[ci] && Chosen(ColumnMap[e].1, columns) == Some(ci);
        var e' :| 0 <= e' < |ColumnMap| && ColumnMap[e'].0 == m[cj] && Chosen(ColumnMap[e'].1, columns) == Some(cj);
        if e != e' {
          assert ColumnMap[e].0 != ColumnMap[e'].0 by {
            if e < e' { } else { }
          }
        }
      } else if ci in m {
        HeadIsChosen(columns, ci);
      } else if cj in m {
        HeadIsChosen(columns, cj);
      }
    }
  }

  /** A header renamed to canonical name `n` was not `n` itself only if no
      header was called `n`: each canonical name is its own first spelling. */
  lemma HeadIsChosen(columns: seq<string>, c: string)
    requires c in RenameMap(columns)
    ensures RenameMap(columns)[c] in columns ==> RenameMap(columns)[c] == c
  {
    ColumnMapWellFormed();
    var m := RenameMap(columns);
    var e :| 0 <= e < |ColumnMap| && ColumnMap[e].0 == m[c] && Chosen(ColumnMap[e].1, columns) == Some(c);
    if m[c] in columns {
      assert ColumnMap[e].1[0] in columns;
      assert FirstPresent(ColumnMap[e].1, columns) == Some(0);
    }
  }

  // ----- Record builder -----

  /** `df.fillna('')`: a missing cell becomes the empty string. */
  function FillRow(cells: seq<Cell>): (row: seq<string>)
    ensures |row| == |cells|
  {
    seq(|cells|, i requires 0 <= i < |cells| =>
      match cells[i]
      case Some(text) => text
      case None => "")
  }

  function FillNa(rows: seq<seq<Cell>>): (filled: seq<seq<string>>)
    ensures |filled| == |rows|
    ensures forall i :: 0 <= i < |rows| ==> filled[i] == FillRow(rows[i])
  {
    seq(|rows|, i requires 0 <= i < |rows| => FillRow(rows[i]))
  }

  /** The cell of `row` in column `i`; a short row has empty cells at its end. */
  function CellAt(row: seq<string>, i: nat): string {
    if i < |row| then row[i] else ""
  }

  /** The index of the first column called `name`. */
  function IndexOf(columns: seq<string>, name: string): (r: Option<nat>)
    ensures r.Some? ==> r.value < |columns| && columns[r.value] == name
    ensures r.Some? ==> forall j :: 0 <= j < r.value ==> columns[j] != name
    ensures r.None? <==> name !in columns
  {
    if columns == [] then None
    else if columns[0] == name then Some(0)
    else match IndexOf(columns[1..], name)
         case Some(k) => Some(k + 1)
         case None => None
  }

  /** `row.get(name, '')`: the cell under the column called `name`, or the
      empty string when there is no such column. */
  function Lookup(columns: seq<string>, row: seq<string>, name: string): (r: string)
    ensures name !in columns ==> r == ""
    ensures Distinct(columns) ==>
              forall i :: 0 <= i < |columns| && columns[i] == name ==> r == CellAt(row, i)
  {
    match IndexOf(columns, name)
    case Some(i) => CellAt(row, i)
    case None => ""
  }

  /** The record built from one filled row. Both flags come out upper-cased,
      so that upper-casing them again changes nothing. */
  function RecordOf(columns: seq<string>, row: seq<string>): (r: Record)
    ensures Upper(r.followedByYou) == r.followedByYou && Upper(r.isVerified) == r.isVerified
  {
    UpperIdempotent(Lookup(columns, row, Name(FollowedByYou)));
    UpperIdempotent(Lookup(columns, row, Name(IsVerified)));
    Record(
      Lookup(columns, row, Name(UserId)),
      Lookup(columns, row, Name(Username)),
      Lookup(columns, row, Name(Fullname)),
      Upper(Lookup(columns, row, Name(FollowedByYou))),
      Upper(Lookup(columns, row, Name(IsVerified))),
      Lookup(columns, row, Name(ProfileUrl)))
  }

  /** Every field of a record is read from the column of its canonical name
      (the flags upper-cased); a field whose column is absent is empty. */
  lemma RecordOfFields(columns: seq<string>, row: seq<string>)
    ensures forall c :: Field(RecordOf(columns, row), c) == Cased(c, Lookup(columns, row, Name(c)))
    ensures forall c :: Name(c) !in columns ==> Field(RecordOf(columns, row), c) == ""
  {
    assert Upper("") == "";
  }

  /** The records `parse_instagram_csv` returns for a table: one per data
      row, in row order. */
  function TableRecords(t: Table): (records: seq<Record>)
    ensures |records| == |t.rows|
  {
    var columns := ParsedColumns(t.header);
    var filled := FillNa(t.rows);
    seq(|filled|, i requires 0 <= i < |filled| => RecordOf(columns, filled[i]))
  }

  /** Each field of the record of row `i` is the cell of that row under the
      field's canonical column, upper-cased for the two flags; a missing
      cell, NaN or past the end of a short row, gives the empty string. */
  lemma CellPlacement(t: Table, i: int, c: int, col: Column)
    requires Distinct(NormalizeHeaders(t.header))
    requires 0 <= i < |t.rows| && 0 <= c < |t.header|
    requires ParsedColumns(t.header)[c] == Name(col)
    ensures Field(TableRecords(t)[i], col)
              == Cased(col, if c < |t.rows[i]| && t.rows[i][c].Some? then t.rows[i][c].value else "")
  {
    RenamingKeepsColumnsDistinct(NormalizeHeaders(t.header));
    var columns := ParsedColumns(t.header);
    var row := FillNa(t.rows)[i];
    RecordOfFields(columns, row);
    assert TableRecords(t)[i] == RecordOf(columns, row);
  }

  /** A canonical column missing from the renamed headers leaves its field
      empty in every record. */
  lemma AbsentColumnIsEmpty(t: Table, col: Column)
    requires Name(col) !in ParsedColumns(t.header)
    ensures forall i :: 0 <= i < |t.rows| ==> Field(TableRecords(t)[i], col) == ""
  {
    var columns := ParsedColumns(t.header);
    forall i | 0 <= i < |t.rows|
      ensures Field(TableRecords(t)[i], col) == ""
    {
      RecordOfFields(columns, FillNa(t.rows)[i]);
    }
  }

  /** Any accepted spelling of a canonical column, used as the only header
      of a one-row export, puts that row's value in the canonical field and
      leaves every other field empty (`avatar_url` fills no field at all). */
  lemma SpellingPlacement(e: int, k: int, x: string)
    requires 0 <= e < |ColumnMap| && 0 <= k < |ColumnMap[e].1|
    ensures var records := TableRecords(Table([ColumnMap[e].1[k]], [[Some(x)]]));
            |records| == 1
            && forall col ::
                 Field(records[0], col) == (if Name(col) == ColumnMap[e].0 then Cased(col, x) else "")
  {
    var t := Table([ColumnMap[e].1[k]], [[Some(x)]]);
    SpellingIsRenamed(e, k);
    assert FillNa(t.rows)[0] == [x];
    assert TableRecords(t)[0] == RecordOf([ColumnMap[e].0], [x]);
    SingleColumnRecord(ColumnMap[e].0, x);
  }

  /** A record read from one column called `std` holding `x`. */
  lemma SingleColumnRecord(std: string, x: string)
    ensures forall col ::
              Field(RecordOf([std], [x]), col) == (if Name(col) == std then Cased(col, x) else "")
  {
    RecordOfFields([std], [x]);
  }

  /** A header made of one accepted spelling is renamed to its canonical
      name. */
  lemma SpellingIsRenamed(e: int, k: int)
    requires 0 <= e < |ColumnMap| && 0 <= k < |ColumnMap[e].1|
    ensures ParsedColumns([ColumnMap[e].1[k]]) == [ColumnMap[e].0]
  {
    var variants := ColumnMap[e].1;
    var v := variants[k];
    var columns := NormalizeHeaders([v]);
    assert columns == [v] by {
      ColumnMapSpellingsPlain();
      PlainNameIsNormal(v);
    }
    assert v in RenameMap(columns) && RenameMap(columns)[v] == ColumnMap[e].0 by {
      ColumnMapWellFormed();
      assert forall j :: 0 <= j < k ==> variants[j] != v;
      assert FirstPresent(variants, columns) == Some(k);
      RenameIsFirstMatch(columns, e);
    }
  }

  /** The row a record is written back as, under the canonical header. */
  function RecordRow(r: Record): seq<Cell> {
    [Some(r.userId), Some(r.username), Some(r.fullname),
     Some(r.followedByYou), Some(r.isVerified), Some(r.profileUrl)]
  }

  /** Records written back as an export whose header is the canonical names. */
  function RecordsTable(records: seq<Record>): Table {
    Table(RecordFields, seq(|records|, i requires 0 <= i < |records| => RecordRow(records[i])))
  }

  lemma RecordFieldsAreCanonical()
    ensures |RecordFields| == |ColumnMap| - 1
    ensures forall i :: 0 <= i < |RecordFields| ==> RecordFields[i] == ColumnMap[i].0
    ensures Distinct(RecordFields)
    ensures forall i :: 0 <= i < |RecordFields| ==> IsPlainName(RecordFields[i])
  {
  }

  /** Canonical headers come through normalising and renaming unchanged. */
  lemma CanonicalHeaderIsParsedAsIs()
    ensures ParsedColumns(RecordFields) == RecordFields
  {
    RecordFieldsAreCanonical();
    ColumnMapWellFormed();
    forall i | 0 <= i < |RecordFields|
      ensures NormalizeHeader(RecordFields[i]) == RecordFields[i]
    {
      PlainNameIsNormal(RecordFields[i]);
    }
    var columns := NormalizeHeaders(RecordFields);
    assert columns == RecordFields;
    var m := RenameMap(columns);
    forall i | 0 <= i < |RecordFields|
      ensures RecordFields[i] in m && m[RecordFields[i]] == RecordFields[i]
    {
      assert ColumnMap[i].1[0] == RecordFields[i];
      assert FirstPresent(ColumnMap[i].1, columns) == Some(0);
      RenameIsFirstMatch(columns, i);
    }
  }

  /** Writing records back under the canonical header and parsing them again
      gives the same records, provided both flags are already upper-case. */
  lemma ReparseRoundTrip(records: seq<Record>)
    requires forall i :: 0 <= i < |records| ==>
               Upper(records[i].followedByYou) == records[i].followedByYou
               && Upper(records[i].isVerified) == records[i].isVerified
    ensures TableRecords(RecordsTable(records)) == records
  {
    var t := RecordsTable(records);
    CanonicalHeaderIsParsedAsIs();
    RecordFieldsAreCanonical();
    var parsed := TableRecords(t);
    forall i | 0 <= i < |records|
      ensures parsed[i] == records[i]
    {
      assert parsed[i] == RecordOf(RecordFields, FillRow(RecordRow(records[i])));
      RecordOfCanonicalRow(records[i]);
    }
  }

  /** A record written back as a canonical row is read back as itself. */
  lemma RecordOfCanonicalRow(r: Record)
    requires Upper(r.followedByYou) == r.followedByYou && Upper(r.isVerified) == r.isVerified
    ensures RecordOf(RecordFields, FillRow(RecordRow(r))) == r
  {
    var row := FillRow(RecordRow(r));
    assert row == [r.userId, r.username, r.fullname, r.followedByYou, r.isVerified, r.profileUrl];
    LookupCanonical(row, 0);
    LookupCanonical(row, 1);
    LookupCanonical(row, 2);
    LookupCanonical(row, 3);
    LookupCanonical(row, 4);
    LookupCanonical(row, 5);
  }

  /** Under the canonical header, each canonical name reads its own cell. */
  lemma LookupCanonical(row: seq<string>, f: int)
    requires 0 <= f < |RecordFields| == |row|
    ensures Lookup(RecordFields, row, RecordFields[f]) == row[f]
  {
    RecordFieldsAreCanonical();
  }

  /** Parsing is idempotent: the records of an export, written back and
      parsed again, come out identical. */
  lemma ReparseIsIdempotent(t: Table)
    ensures TableRecords(RecordsTable(TableRecords(t))) == TableRecords(t)
  {
    ReparseRoundTrip(TableRecords(t));
  }

  // ----- Metadata aggregator -----

  predicate FollowsBack(r: Record) { r.followedByYou == "YES" }

  predicate NotFollowedBack(r: Record) { r.followedByYou == "NO" }

  predicate Verified(r: Record) { r.isVerified == "YES" }

  /** The metadata counts. The two follow counts never exceed the total, and
      reach it exactly when every flag reads `YES` or `NO`. */
  function Summarize(records: seq<Record>): (m: Metadata)
    ensures m.total == |records|
    ensures m.followingBack + m.notFollowingBack <= m.total
    ensures (m.followingBack + m.notFollowingBack == m.total)
            <==> (forall i :: 0 <= i < |records| ==> records[i].followedByYou in {"YES", "NO"})
    ensures m.verified <= m.total
  {
    CountExclusive(records, FollowsBack, NotFollowedBack);
    Metadata(
      |records|,
      Count(records, FollowsBack),
      Count(records, NotFollowedBack),
      Count(records, Verified))
  }

  // ----- parse_instagram_csv -----

  /** The `rename_map` loop: for each canonical column in table order, the
      first of its spellings found among the headers is mapped to it. */
  method BuildRenameMap(columnMap: seq<(string, seq<string>)>, columns: seq<string>)
    returns (rename: map<string, string>)
    ensures rename == RenameMapOf(columnMap, columns)
  {
    rename := map[];
    var e := 0;
    while e < |columnMap|
      invariant 0 <= e <= |columnMap|
      invariant rename == RenameMapOf(columnMap[..e], columns)
    {
      var standard := columnMap[e].0;
      var variants := columnMap[e].1;
      ghost var before := rename;
      var j := 0;
      while j < |variants|
        invariant 0 <= j <= |variants|
        invariant forall k :: 0 <= k < j ==> variants[k] !in columns
        invariant rename == before
      {
        if variants[j] in columns {
          assert Chosen(variants, columns) == Some(variants[j]);
          rename := rename[variants[j] := standard];
          break;
        }
        j := j + 1;
      }
      assert rename == match Chosen(variants, columns)
                       case Some(v) => before[v := standard]
                       case None => before;
      assert columnMap[..e + 1][..e] == columnMap[..e];
      e := e + 1;
    }
    assert columnMap[..|columnMap|] == columnMap;
  }

  /** The `records` loop: one record per filled row, appended in row order. */
  method BuildRecords(columns: seq<string>, filled: seq<seq<string>>) returns (records: seq<Record>)
    ensures |records| == |filled|
    ensures forall i :: 0 <= i < |filled| ==> records[i] == RecordOf(columns, filled[i])
  {
    records := [];
    for i := 0 to |filled|
      invariant |records| == i
      invariant forall k :: 0 <= k < i ==> records[k] == RecordOf(columns, filled[k])
    {
      records := records + [RecordOf(columns, filled[i])];
    }
  }

  /** Parses one tokenised export into its records and metadata. */
  method ParseInstagramTable(t: Table) returns (records: seq<Record>, meta: Metadata)
    requires Distinct(NormalizeHeaders(t.header))
    ensures records == TableRecords(t)
    ensures meta == Summarize(records)
  {
    var columns := NormalizeHeaders(t.header);
    var rename := BuildRenameMap(ColumnMap, columns);
    var renamed := RenameColumns(columns, rename);
    var filled := FillNa(t.rows);
    records := BuildRecords(renamed, filled);
    meta := Summarize(records);
  }
}
