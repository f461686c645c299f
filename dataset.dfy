/** A dataset in the RecBole atomic-file layout, loaded from tab-separated
    text: `.user` and `.item` files (a header line of `name:type` fields,
    then one row per user or item) and `.inter` files (one row per
    interaction, the timestamp in the last column).  Loading fills the user
    and item mappings, groups interactions by timestamp, keeps a per-user
    history with its length counter, and decides whether the dataset is
    valid.  A file is given as its lines; opening it is left to the caller. */
module Dataset {
  import opened Wrappers
  import opened Strings
  import opened Sorting
  import opened OrderedMaps
  import opened PyValues

  /** A text file as its lines, without line terminators. */
  type Lines = seq<string>

  /** `f.readline()` on a fresh file: the header, or "" for an empty file. */
  function Header(lines: Lines): string {
    if lines == [] then "" else lines[0]
  }

  /** The lines `for line in f` visits after the header was read. */
  function Body(lines: Lines): Lines {
    if lines == [] then [] else lines[1..]
  }

  /** The fields of one line; splitting never yields an empty list. */
  type Row = fs: seq<string> | |fs| >= 1 witness [""]

  /** `line.strip().split('\t')`. */
  function Fields(line: string): Row
  {
    Split(Strip(line), "\t")
  }

  /** The fields of each line. */
  function Table(lines: Lines): (t: seq<Row>)
    ensures |t| == |lines|
  {
    if lines == [] then [] else [Fields(lines[0])] + Table(lines[1..])
  }

  /** One more line adds its fields at the end. */
  lemma {:induction false} TableSnoc(lines: Lines, line: string)
    ensures Table(lines + [line]) == Table(lines) + [Fields(line)]
  {
    if lines != [] {
      assert (lines + [line])[1..] == lines[1..] + [line];
      TableSnoc(lines[1..], line);
    }
  }

  /** A character that occurs in `s` is included in it as a one-character
      substring. */
  lemma CharIncluded(s: string, c: char)
    requires c in s
    ensures Includes(s, [c])
  {
    var i :| 0 <= i < |s| && s[i] == c;
    assert OccursAt(s, [c], i);
  }

  /** `field.split(':')[0]`: a header field without its `:type` suffix. */
  function FieldName(field: string): (name: string)
    ensures name <= field
    ensures ':' !in name
    ensures |name| < |field| ==> field[|name|] == ':'
  {
    SplitHead(field, ':');
    Split(field, [':'])[0]
  }

  /** The first piece of a split is a prefix free of the separator, followed
      by the separator when it is not the whole string. */
  lemma SplitHead(s: string, c: char)
    ensures var p := Split(s, [c])[0];
      p <= s && c !in p && (|p| < |s| ==> s[|p|] == c)
  {
    var parts := Split(s, [c]);
    if c in parts[0] {
      CharIncluded(parts[0], c);
    }
    if |parts| > 1 {
      assert s == parts[0] + [c] + Join(parts[1..], [c]);
    }
  }

  /** The names of a header's fields, each without its suffix. */
  function Names(fields: seq<string>): (names: seq<string>)
    ensures |names| == |fields|
    ensures forall i :: 0 <= i < |fields| ==> names[i] == FieldName(fields[i])
  {
    if fields == [] then [] else [FieldName(fields[0])] + Names(fields[1..])
  }

  /** The field names a file's header declares. */
  function HeaderNames(lines: Lines): (names: seq<string>)
    ensures |names| >= 1
  {
    Names(Fields(Header(lines)))
  }

  /** A tab-separated file as the loader reads it: the field names of its
      header line, then the fields of each later line. */
  datatype Tsv = Tsv(names: FieldNames, rows: seq<Row>)

  /** The field names of a header line; there is always at least one. */
  type FieldNames = names: seq<string> | |names| >= 1 witness [""]

  function ParseTsv(lines: Lines): (file: Tsv)
    ensures |file.rows| == |Body(lines)|
  {
    Tsv(HeaderNames(lines), Table(Body(lines)))
  }

  function ParseAll(files: seq<Lines>): (parsed: seq<Tsv>)
    ensures |parsed| == |files|
  {
    if files == [] then [] else [ParseTsv(files[0])] + ParseAll(files[1..])
  }

  lemma ParseAllPrefix(files: seq<Lines>, i: nat)
    requires i < |files|
    ensures ParseAll(files[..i + 1]) == ParseAll(files[..i]) + [ParseTsv(files[i])]
  {
    assert files[..i + 1] == files[..i] + [files[i]];
    ParseAllSnoc(files[..i], files[i]);
  }

  /** One more file adds its parse at the end. */
  lemma {:induction false} ParseAllSnoc(files: seq<Lines>, file: Lines)
    ensures ParseAll(files + [file]) == ParseAll(files) + [ParseTsv(file)]
  {
    if files != [] {
      assert (files + [file])[1..] == files[1..] + [file];
      ParseAllSnoc(files[1..], file);
    }
  }

  // ---------------------------------------------------------------------
  // Records

  /** No later element of `names` repeats `names[i]`. */
  predicate LastAt(names: seq<string>, i: nat) {
    forall j :: i < j < |names| ==> names[j] != names[i]
  }

  /** `rec` after `rec[names[i]] = vals[i]` for each `i` in turn: keys not
      named keep their values, and each name ends up with the value of its
      last occurrence. */
  function Assign<V>(rec: map<string, V>, names: seq<string>, vals: seq<V>): (r: map<string, V>)
    requires |names| <= |vals|
    ensures forall k :: k in r <==> k in rec || k in names
    ensures forall k :: k !in names && k in rec ==> r[k] == rec[k]
    ensures forall i :: 0 <= i < |names| && LastAt(names, i) ==> names[i] in r && r[names[i]] == vals[i]
    decreases |names|
  {
    if names == [] then rec
    else
      var r := Assign(rec[names[0] := vals[0]], names[1..], vals[1..]);
      forall i | 0 <= i < |names| && LastAt(names, i) ensures names[i] in r && r[names[i]] == vals[i] {
        if i == 0 {
          assert names[0] !in names[1..];
        } else {
          assert names[1..][i - 1] == names[i] && vals[1..][i - 1] == vals[i];
          assert LastAt(names[1..], i - 1);
        }
      }
      r
  }

  /** Each field as a Python string value. */
  function Strs(fields: seq<string>): (vs: seq<PyValue>)
    ensures |vs| == |fields|
    ensures forall i :: 0 <= i < |fields| ==> vs[i] == PStr(fields[i])
  {
    if fields == [] then [] else [PStr(fields[0])] + Strs(fields[1..])
  }

  const HistoryLength := "user_history_length"
  const History := "interaction_history"
  const HistoryText := "interaction_history_str"

  /** The record a user starts with before its row's columns are stored. */
  function NewUser(): Record {
    map[HistoryLength := PInt(0), History := PHistory([])]
  }

  /** The history counter of a user record equals the length of its
      history. */
  predicate Counted(rec: Record) {
    && HistoryLength in rec && History in rec
    && rec[History].PHistory?
    && rec[HistoryLength] == PInt(|rec[History].entries|)
  }

  predicate AllCounted(users: map<string, Record>) {
    forall u :: u in users ==> Counted(users[u])
  }

  /** A header that does not overwrite the two fields the loader maintains. */
  predicate NoReserved(names: seq<string>) {
    HistoryLength !in names && History !in names
  }

  // ---------------------------------------------------------------------
  // User files

  /** One row of a user file: the user keyed by column 0 is created if new,
      then header name `i` is set to column `i` for every header field; a
      row with fewer columns than the header raises `IndexError`. */
  function UserRow(users: map<string, Record>, names: seq<string>, fields: Row): (r: Result<map<string, Record>, PyError>)
  {
    if names == [] then Ok(users)
    else if |fields| < |names| then Err(IndexError)
    else
      var uid := fields[0];
      var rec := if uid in users then users[uid] else NewUser();
      Ok(users[uid := Assign(rec, names, Strs(fields))])
  }

  function UserRows(users: map<string, Record>, names: seq<string>, rows: seq<Row>): Result<map<string, Record>, PyError>
    decreases |rows|
  {
    if rows == [] then Ok(users)
    else
      match UserRow(users, names, rows[0])
      case Err(e) => Err(e)
      case Ok(users') => UserRows(users', names, rows[1..])
  }

  /** Rows of a header without the reserved names keep every history
      counter equal to its history's length, and each row's user is a key. */
  lemma {:induction false} UserRowsCounted(users: map<string, Record>, names: seq<string>, rows: seq<Row>)
    requires names != [] && NoReserved(names) && AllCounted(users)
    ensures UserRows(users, names, rows).Ok? ==> AllCounted(UserRows(users, names, rows).value)
    ensures UserRows(users, names, rows).Ok? ==>
              forall i :: 0 <= i < |rows| ==> rows[i][0] in UserRows(users, names, rows).value
    decreases |rows|
  {
    if rows != [] {
      var fields := rows[0];
      var r := UserRow(users, names, fields);
      if r.Ok? {
        var uid := fields[0];
        var rec := if uid in users then users[uid] else NewUser();
        var rec' := Assign(rec, names, Strs(fields));
        assert Counted(rec');
        assert r.value == users[uid := rec'];
        UserRowsCounted(r.value, names, rows[1..]);
        if UserRows(users, names, rows).Ok? {
          UserRowsKeep(r.value, names, rows[1..], uid);
          forall i | 1 <= i < |rows| ensures rows[i][0] in UserRows(users, names, rows).value {
            assert rows[1..][i - 1] == rows[i];
          }
        }
      }
    }
  }

  /** A user key, once present, stays. */
  lemma {:induction false} UserRowsKeep(users: map<string, Record>, names: seq<string>, rows: seq<Row>, u: string)
    requires u in users && UserRows(users, names, rows).Ok?
    ensures u in UserRows(users, names, rows).value
    decreases |rows|
  {
    if rows != [] {
      UserRowsKeep(UserRow(users, names, rows[0]).value, names, rows[1..], u);
    }
  }

  // ---------------------------------------------------------------------
  // Item files

  /** One row of an item file: the item keyed by column 0 is REPLACED by a
      record mapping header name `i` to column `i` for each column present;
      a row with more columns than the header raises `IndexError`. */
  function ItemRow(items: map<string, map<string, string>>, names: seq<string>, fields: Row): Result<map<string, map<string, string>>, PyError> {
    if |fields| > |names| then Err(IndexError)
    else Ok(items[fields[0] := Assign(map[], names[..|fields|], fields)])
  }

  /** An item row fails exactly when it has more columns than the header;
      otherwise it adds or replaces one item, whose record holds exactly
      the header names of the columns present, each name mapped to its
      last column. */
  lemma ItemRowShape(items: map<string, map<string, string>>, names: seq<string>, fields: Row)
    ensures ItemRow(items, names, fields).Err? <==> |fields| > |names|
    ensures ItemRow(items, names, fields).Ok? ==>
              var r := ItemRow(items, names, fields).value;
              && r.Keys == items.Keys + {fields[0]}
              && (forall k :: k != fields[0] && k in items ==> r[k] == items[k])
              && (forall k :: k in r[fields[0]] <==> k in names[..|fields|])
              && (forall i :: 0 <= i < |fields| && LastAt(names[..|fields|], i) ==> r[fields[0]][names[i]] == fields[i])
  {
    if |fields| <= |names| {
      var present := names[..|fields|];
      assert forall i :: 0 <= i < |fields| ==> present[i] == names[i];
    }
  }

  function ItemRows(items: map<string, map<string, string>>, names: seq<string>, rows: seq<Row>): Result<map<string, map<string, string>>, PyError>
    decreases |rows|
  {
    if rows == [] then Ok(items)
    else
      match ItemRow(items, names, rows[0])
      case Err(e) => Err(e)
      case Ok(items') => ItemRows(items', names, rows[1..])
  }

  // ---------------------------------------------------------------------
  // Interaction files

  /** `{names[i]: fields[i] for i in range(lo, hi)}`, in insertion order. */
  function Comprehension(names: seq<string>, fields: seq<string>, lo: nat, hi: nat): (d: Interaction)
    requires lo <= hi <= |names| && hi <= |fields|
    decreases hi - lo
  {
    if lo == hi then []
    else Put(Comprehension(names, fields, lo, hi - 1), names[hi - 1], fields[hi - 1])
  }

  /** What loading interaction files maintains: interactions grouped by
      timestamp, the user records, and the timestamps of the current file
      (a set, kept duplicate-free in the order first seen). */
  datatype InterState = InterState(history: map<string, seq<Interaction>>, users: map<string, Record>, stamps: seq<string>)

  /** `user_history_length += 1` and `interaction_history.append(entry)` on
      the record of `uid`. */
  function CountInteraction(users: map<string, Record>, uid: string, entry: Interaction): (r: Result<map<string, Record>, PyError>)
    ensures r.Ok? ==> r.value.Keys == users.Keys
    ensures Counted(if uid in users then users[uid] else NewUser()) && uid in users ==>
              r.Ok? && r.value.Keys == users.Keys && Counted(r.value[uid]) &&
              r.value[uid][History] == PHistory(users[uid][History].entries + [entry])
  {
    if uid !in users then Err(KeyError)
    else
      var rec := users[uid];
      if HistoryLength !in rec then Err(KeyError)
      else if !rec[HistoryLength].PInt? then Err(TypeError)
      else
        var rec1 := rec[HistoryLength := PInt(rec[HistoryLength].i + 1)];
        if History !in rec1 then Err(KeyError)
        else if !rec1[History].PHistory? then Err(AttributeError)
        else Ok(users[uid := rec1[History := PHistory(rec1[History].entries + [entry])]])
  }

  /** One row of an interaction file.  Its last column is the timestamp;
      the other columns, by header name, are appended to the timestamp's
      group; when the first header field is `user_id` and column 0 names a
      known user, the columns between the first and the last are appended to
      that user's history.  A row with more columns than the header plus the
      timestamp raises `IndexError`. */
  function InterRow(st: InterState, names: seq<string>, userIds: set<string>, fields: Row): Result<InterState, PyError>
  {
    var n := |fields|;
    var ts := fields[n - 1];
    if n - 1 > |names| then Err(IndexError)
    else
      var entry := Comprehension(names, fields, 0, n - 1);
      var group := if ts in st.history then st.history[ts] else [];
      var history := st.history[ts := group + [entry]];
      var counted :=
        if names == [] then Err(IndexError)
        else if names[0] == "user_id" && fields[0] in userIds then
          CountInteraction(st.users, fields[0], if n - 1 >= 1 then Comprehension(names, fields, 1, n - 1) else [])
        else Ok(st.users);
      match counted
      case Err(e) => Err(e)
      case Ok(users) => Ok(InterState(history, users, if ts in st.stamps then st.stamps else st.stamps + [ts]))
  }

  function InterRows(st: InterState, names: seq<string>, userIds: set<string>, rows: seq<Row>): Result<InterState, PyError>
    decreases |rows|
  {
    if rows == [] then Ok(st)
    else
      match InterRow(st, names, userIds, rows[0])
      case Err(e) => Err(e)
      case Ok(st') => InterRows(st', names, userIds, rows[1..])
  }

  /** The timestamp column of each row. */
  function RowStamps(rows: seq<Row>): (ts: seq<string>)
    ensures |ts| == |rows|
    ensures forall i :: 0 <= i < |rows| ==> ts[i] == rows[i][|rows[i]| - 1]
  {
    if rows == [] then [] else [rows[0][|rows[0]| - 1]] + RowStamps(rows[1..])
  }

  /** One interaction row files its entry under its timestamp, adds the
      timestamp to the set unless present, and neither adds nor drops a
      user. */
  lemma InterRowShape(st: InterState, names: seq<string>, userIds: set<string>, fields: Row)
    requires InterRow(st, names, userIds, fields).Ok?
    ensures var st' := InterRow(st, names, userIds, fields).value;
      var ts := fields[|fields| - 1];
      && ts in st'.history && st.history.Keys <= st'.history.Keys
      && st'.users.Keys == st.users.Keys
      && (forall t :: t in st'.stamps <==> t in st.stamps || t == ts)
      && (Distinct(st.stamps) ==> Distinct(st'.stamps))
  {
  }

  /** Loading interaction rows records each row's timestamp once: the
      timestamps afterwards are the earlier ones and those of the rows,
      without duplicates; and no user is added or dropped. */
  lemma {:induction false} InterRowsStamps(st: InterState, names: seq<string>, userIds: set<string>, rows: seq<Row>)
    requires Distinct(st.stamps)
    requires InterRows(st, names, userIds, rows).Ok?
    ensures Distinct(InterRows(st, names, userIds, rows).value.stamps)
    ensures forall t :: t in InterRows(st, names, userIds, rows).value.stamps <==> t in st.stamps || t in RowStamps(rows)
    ensures InterRows(st, names, userIds, rows).value.users.Keys == st.users.Keys
    ensures rows != [] ==> InterRows(st, names, userIds, rows).value.history != map[]
    decreases |rows|
  {
    if rows != [] {
      var ts := rows[0][|rows[0]| - 1];
      var st' := InterRowsCons(st, names, userIds, rows);
      InterRowsStamps(st', names, userIds, rows[1..]);
      InterRowsHistory(st', names, userIds, rows[1..]);
      var fin := InterRows(st', names, userIds, rows[1..]).value;
      assert InterRows(st, names, userIds, rows).value == fin;
      assert RowStamps(rows) == [ts] + RowStamps(rows[1..]);
      StampsStep(st, st', fin, ts, RowStamps(rows[1..]));
    }
  }

  /** The state after the first of the rows, from which the rest go on,
      and what the first row did to it. */
  lemma InterRowsCons(st: InterState, names: seq<string>, userIds: set<string>, rows: seq<Row>) returns (st': InterState)
    requires rows != [] && InterRows(st, names, userIds, rows).Ok?
    ensures InterRows(st', names, userIds, rows[1..]) == InterRows(st, names, userIds, rows)
    ensures var ts := rows[0][|rows[0]| - 1];
      && ts in st'.history && st.history.Keys <= st'.history.Keys
      && st'.users.Keys == st.users.Keys
      && (forall t :: t in st'.stamps <==> t in st.stamps || t == ts)
      && (Distinct(st.stamps) ==> Distinct(st'.stamps))
  {
    st' := InterRow(st, names, userIds, rows[0]).value;
    InterRowShape(st, names, userIds, rows[0]);
  }

  /** The facts about one row and about the rest combine into the facts
      about all the rows. */
  lemma StampsStep(st: InterState, mid: InterState, fin: InterState, ts: string, rest: seq<string>)
    requires ts in mid.history && st.history.Keys <= mid.history.Keys && mid.history.Keys <= fin.history.Keys
    requires mid.users.Keys == st.users.Keys && fin.users.Keys == mid.users.Keys
    requires forall t :: t in mid.stamps <==> t in st.stamps || t == ts
    requires forall t :: t in fin.stamps <==> t in mid.stamps || t in rest
    requires Distinct(fin.stamps)
    ensures Distinct(fin.stamps) && fin.users.Keys == st.users.Keys && fin.history != map[]
    ensures forall t :: t in fin.stamps <==> t in st.stamps || t in [ts] + rest
  {
  }

  /** The groups of timestamps already seen persist. */
  lemma {:induction false} InterRowsHistory(st: InterState, names: seq<string>, userIds: set<string>, rows: seq<Row>)
    requires InterRows(st, names, userIds, rows).Ok?
    ensures st.history.Keys <= InterRows(st, names, userIds, rows).value.history.Keys
    decreases |rows|
  {
    if rows != [] {
      InterRowsHistory(InterRow(st, names, userIds, rows[0]).value, names, userIds, rows[1..]);
    }
  }

  /** Interaction rows keep every user's history counter equal to its
      history's length. */
  lemma {:induction false} InterRowsCounted(st: InterState, names: seq<string>, userIds: set<string>, rows: seq<Row>)
    requires AllCounted(st.users)
    requires forall u :: u in userIds ==> u in st.users
    requires InterRows(st, names, userIds, rows).Ok?
    ensures AllCounted(InterRows(st, names, userIds, rows).value.users)
    decreases |rows|
  {
    if rows != [] {
      var st' := InterRow(st, names, userIds, rows[0]).value;
      InterRowShape(st, names, userIds, rows[0]);
      InterRowCounted(st, names, userIds, rows[0]);
      InterRowsCounted(st', names, userIds, rows[1..]);
    }
  }

  /** One interaction row keeps every history counter equal to its
      history's length: the counter of the row's user goes up by one as its
      history grows by one entry. */
  lemma InterRowCounted(st: InterState, names: seq<string>, userIds: set<string>, fields: Row)
    requires AllCounted(st.users)
    requires forall u :: u in userIds ==> u in st.users
    requires InterRow(st, names, userIds, fields).Ok?
    ensures AllCounted(InterRow(st, names, userIds, fields).value.users)
  {
  }

  /** After an interaction file: each user record that has a history also
      gets the history's text. */
  function WithHistoryText(rec: Record): Record {
    if History in rec then rec[HistoryText := PStr(Str(rec[History]))] else rec
  }

  /** The pass at the end of an interaction file over every user record. */
  function HistoryTexts(users: map<string, Record>): map<string, Record> {
    map u | u in users :: WithHistoryText(users[u])
  }

  /** The members of a list of ids, as `in` tests them. */
  function IdSet(ids: seq<string>): set<string> {
    set u | u in ids
  }

  /** One interaction file: its rows start from an empty timestamp set,
      then every user record gets the text of its history. */
  function InterFile(st: InterState, userIds: set<string>, file: Tsv): Result<InterState, PyError> {
    match InterRows(InterState(st.history, st.users, []), file.names, userIds, file.rows)
    case Err(e) => Err(e)
    case Ok(st') => Ok(st'.(users := HistoryTexts(st'.users)))
  }

  // ---------------------------------------------------------------------
  // Whole files, one after the other

  /** The header names of each file in turn. */
  function FileNames(files: seq<Tsv>): seq<string> {
    if files == [] then [] else files[0].names + FileNames(files[1..])
  }

  function UserFiles(users: map<string, Record>, files: seq<Tsv>): Result<map<string, Record>, PyError>
    decreases |files|
  {
    if files == [] then Ok(users)
    else
      match UserRows(users, files[0].names, files[0].rows)
      case Err(e) => Err(e)
      case Ok(users') => UserFiles(users', files[1..])
  }

  function ItemFiles(items: map<string, map<string, string>>, files: seq<Tsv>): Result<map<string, map<string, string>>, PyError>
    decreases |files|
  {
    if files == [] then Ok(items)
    else
      match ItemRows(items, files[0].names, files[0].rows)
      case Err(e) => Err(e)
      case Ok(items') => ItemFiles(items', files[1..])
  }

  function InterFiles(st: InterState, userIds: set<string>, files: seq<Tsv>): Result<InterState, PyError>
    decreases |files|
  {
    if files == [] then Ok(st)
    else
      match InterFile(st, userIds, files[0])
      case Err(e) => Err(e)
      case Ok(st') => InterFiles(st', userIds, files[1..])
  }

  /** One file of each fold, taken from position `i` of the file list. */
  lemma FileNamesStep(files: seq<Tsv>, i: nat)
    requires i < |files|
    ensures FileNames(files[i..]) == files[i].names + FileNames(files[i + 1..])
  {
    assert files[i..][1..] == files[i + 1..];
  }

  lemma UserFilesStep(users: map<string, Record>, files: seq<Tsv>, i: nat)
    requires i < |files|
    ensures UserFiles(users, files[i..]) ==
      match UserRows(users, files[i].names, files[i].rows)
      case Err(e) => Err(e)
      case Ok(users') => UserFiles(users', files[i + 1..])
  {
    assert files[i..][1..] == files[i + 1..];
  }

  lemma ItemFilesStep(items: map<string, map<string, string>>, files: seq<Tsv>, i: nat)
    requires i < |files|
    ensures ItemFiles(items, files[i..]) ==
      match ItemRows(items, files[i].names, files[i].rows)
      case Err(e) => Err(e)
      case Ok(items') => ItemFiles(items', files[i + 1..])
  {
    assert files[i..][1..] == files[i + 1..];
  }

  lemma InterFilesStep(st: InterState, userIds: set<string>, files: seq<Tsv>, i: nat)
    requires i < |files|
    ensures InterFiles(st, userIds, files[i..]) ==
      match InterFile(st, userIds, files[i])
      case Err(e) => Err(e)
      case Ok(st') => InterFiles(st', userIds, files[i + 1..])
  {
    assert files[i..][1..] == files[i + 1..];
  }

  /** The last element of a non-empty list. */
  function Last<T>(s: seq<T>): T
    requires s != []
  {
    s[|s| - 1]
  }

  // ---------------------------------------------------------------------
  // What loading promises

  /** User files whose headers do not use the reserved names leave every
      history counter equal to its history's length; no user is dropped. */
  lemma {:induction false} UserFilesCounted(users: map<string, Record>, files: seq<Tsv>)
    requires AllCounted(users)
    requires forall i :: 0 <= i < |files| ==> NoReserved(files[i].names)
    requires UserFiles(users, files).Ok?
    ensures AllCounted(UserFiles(users, files).value)
    ensures users.Keys <= UserFiles(users, files).value.Keys
    decreases |files|
  {
    if files != [] {
      var names, rows := files[0].names, files[0].rows;
      UserRowsCounted(users, names, rows);
      var users' := UserRows(users, names, rows).value;
      forall u | u in users ensures u in users' {
        UserRowsKeep(users, names, rows, u);
      }
      forall i | 0 <= i < |files| - 1 ensures NoReserved(files[1..][i].names) {
        assert files[1..][i] == files[i + 1];
      }
      UserFilesCounted(users', files[1..]);
    }
  }

  /** Interaction files neither add nor drop users, keep the timestamp
      groups already seen, and end with the timestamps of the LAST file's
      rows, each once. */
  lemma {:induction false} InterFilesStamps(st: InterState, userIds: set<string>, files: seq<Tsv>)
    requires InterFiles(st, userIds, files).Ok?
    ensures InterFiles(st, userIds, files).value.users.Keys == st.users.Keys
    ensures st.history.Keys <= InterFiles(st, userIds, files).value.history.Keys
    ensures files != [] ==> Distinct(InterFiles(st, userIds, files).value.stamps)
    ensures files != [] ==> forall t :: t in InterFiles(st, userIds, files).value.stamps <==> t in RowStamps(Last(files).rows)
    ensures files != [] && Last(files).rows != [] ==> InterFiles(st, userIds, files).value.history != map[]
    decreases |files|
  {
    if files != [] {
      var names, rows := files[0].names, files[0].rows;
      var start := InterState(st.history, st.users, []);
      InterRowsStamps(start, names, userIds, rows);
      InterRowsHistory(start, names, userIds, rows);
      var st' := InterFile(st, userIds, files[0]).value;
      assert st'.users.Keys == st.users.Keys;
      InterFilesStamps(st', userIds, files[1..]);
      if |files| > 1 {
        assert Last(files[1..]) == Last(files);
      }
    }
  }

  /** Interaction files keep every history counter equal to its history's
      length, when the listed users all have records. */
  lemma {:induction false} InterFilesCounted(st: InterState, userIds: set<string>, files: seq<Tsv>)
    requires AllCounted(st.users) && userIds <= st.users.Keys
    requires InterFiles(st, userIds, files).Ok?
    ensures AllCounted(InterFiles(st, userIds, files).value.users)
    decreases |files|
  {
    if files != [] {
      InterFileCounted(st, userIds, files[0]);
      InterFilesCounted(InterFile(st, userIds, files[0]).value, userIds, files[1..]);
    }
  }

  /** One interaction file keeps every history counter equal to its
      history's length and keeps the same users. */
  lemma InterFileCounted(st: InterState, userIds: set<string>, file: Tsv)
    requires AllCounted(st.users) && userIds <= st.users.Keys
    requires InterFile(st, userIds, file).Ok?
    ensures AllCounted(InterFile(st, userIds, file).value.users)
    ensures InterFile(st, userIds, file).value.users.Keys == st.users.Keys
  {
    var start := InterState(st.history, st.users, []);
    InterRowsCounted(start, file.names, userIds, file.rows);
    InterRowsStamps(start, file.names, userIds, file.rows);
    HistoryTextsCounted(InterRows(start, file.names, userIds, file.rows).value.users);
  }

  /** Adding the history text leaves the counter and the history alone. */
  lemma HistoryTextsCounted(users: map<string, Record>)
    requires AllCounted(users)
    ensures AllCounted(HistoryTexts(users)) && HistoryTexts(users).Keys == users.Keys
  {
    forall u | u in HistoryTexts(users) ensures Counted(HistoryTexts(users)[u]) {
      assert HistoryTexts(users)[u] == users[u][HistoryText := PStr(Str(users[u][History]))];
    }
  }

  /** After interaction files there are timestamp groups exactly when
      there were some before or one of the files has a data row. */
  lemma {:induction false} InterFilesHistory(st: InterState, userIds: set<string>, files: seq<Tsv>)
    requires InterFiles(st, userIds, files).Ok?
    ensures InterFiles(st, userIds, files).value.history != map[] <==>
              st.history != map[] || exists i :: 0 <= i < |files| && files[i].rows != []
    decreases |files|
  {
    if files != [] {
      var start := InterState(st.history, st.users, []);
      var st' := InterFile(st, userIds, files[0]).value;
      InterRowsHistory(start, files[0].names, userIds, files[0].rows);
      if files[0].rows != [] {
        InterRowsStamps(start, files[0].names, userIds, files[0].rows);
      }
      InterFilesHistory(st', userIds, files[1..]);
      if exists i :: 0 <= i < |files| - 1 && files[1..][i].rows != [] {
        var i :| 0 <= i < |files| - 1 && files[1..][i].rows != [];
        assert files[i + 1].rows != [];
      }
      if exists i :: 0 <= i < |files| && files[i].rows != [] {
        var i :| 0 <= i < |files| && files[i].rows != [];
        if i > 0 {
          assert files[1..][i - 1].rows != [];
        }
      }
    }
  }

  // ---------------------------------------------------------------------
  // The row loops

  /** `rec[names[i]] = fields[i]` for each header position in turn. */
  method AssignFields(rec: Record, names: seq<string>, fields: seq<string>) returns (r: Record)
    requires |names| <= |fields|
    ensures r == Assign(rec, names, Strs(fields))
  {
    var vals := Strs(fields);
    r := rec;
    var idx := 0;
    while idx < |names|
      invariant 0 <= idx <= |names|
      invariant Assign(rec, names, vals) == Assign(r, names[idx..], vals[idx..])
    {
      assert names[idx..][0] == names[idx] && names[idx..][1..] == names[idx + 1..];
      assert vals[idx..][0] == vals[idx] && vals[idx..][1..] == vals[idx + 1..];
      r := r[names[idx] := PStr(fields[idx])];
      idx := idx + 1;
    }
  }

  /** Reading a file: the header line's field names, then the fields of
      every later line. */
  method ReadTsv(lines: Lines) returns (file: Tsv)
    ensures file == ParseTsv(lines)
  {
    var rows := ReadRows(Body(lines));
    return Tsv(HeaderNames(lines), rows);
  }

  /** `for line in f`: the fields of each line. */
  method ReadRows(body: Lines) returns (rows: seq<Row>)
    ensures rows == Table(body)
  {
    rows := [];
    var i := 0;
    while i < |body|
      invariant 0 <= i <= |body|
      invariant rows == Table(body[..i])
    {
      TableSnoc(body[..i], body[i]);
      assert body[..i + 1] == body[..i] + [body[i]];
      var row := Fields(body[i]);
      rows := rows + [row];
      i := i + 1;
    }
    assert body[..i] == body;
  }

  /** Reading each file in turn. */
  method ReadFiles(files: seq<Lines>) returns (parsed: seq<Tsv>)
    ensures parsed == ParseAll(files)
  {
    parsed := [];
    var i := 0;
    while i < |files|
      invariant 0 <= i <= |files|
      invariant parsed == ParseAll(files[..i])
    {
      ParseAllPrefix(files, i);
      var file := ReadTsv(files[i]);
      parsed := parsed + [file];
      i := i + 1;
    }
    assert files[..i] == files;
  }

  /** The row loop of `load_user_features`. */
  method ReadUserRows(users: map<string, Record>, names: seq<string>, rows: seq<Row>) returns (r: Result<map<string, Record>, PyError>)
    ensures r == UserRows(users, names, rows)
  {
    var cur := users;
    var i := 0;
    while i < |rows|
      invariant 0 <= i <= |rows|
      invariant UserRows(users, names, rows) == UserRows(cur, names, rows[i..])
    {
      var fields := rows[i];
      assert rows[i..][0] == fields && rows[i..][1..] == rows[i + 1..];
      if names != [] {
        if |fields| < |names| {
          return Err(IndexError);
        }
        var uid := fields[0];
        var rec := AssignFields(if uid in cur then cur[uid] else NewUser(), names, fields);
        cur := cur[uid := rec];
      }
      i := i + 1;
    }
    assert rows[|rows|..] == [];
    return Ok(cur);
  }

  /** The row loop of `load_item_features`. */
  method ReadItemRows(items: map<string, map<string, string>>, names: seq<string>, rows: seq<Row>) returns (r: Result<map<string, map<string, string>>, PyError>)
    ensures r == ItemRows(items, names, rows)
  {
    var cur := items;
    var i := 0;
    while i < |rows|
      invariant 0 <= i <= |rows|
      invariant ItemRows(items, names, rows) == ItemRows(cur, names, rows[i..])
    {
      var fields := rows[i];
      assert rows[i..][0] == fields && rows[i..][1..] == rows[i + 1..];
      var next := ItemRow(cur, names, fields);
      if next.Err? {
        return Err(IndexError);
      }
      cur := cur[fields[0] := Assign(map[], names[..|fields|], fields)];
      assert cur == next.value;
      i := i + 1;
    }
    assert rows[|rows|..] == [];
    return Ok(cur);
  }

  /** The row loop of `load_inter_file`. */
  method ReadInterRows(st: InterState, names: seq<string>, userIds: set<string>, rows: seq<Row>) returns (r: Result<InterState, PyError>)
    ensures r == InterRows(st, names, userIds, rows)
  {
    var cur := st;
    var i := 0;
    while i < |rows|
      invariant 0 <= i <= |rows|
      invariant InterRows(st, names, userIds, rows) == InterRows(cur, names, userIds, rows[i..])
    {
      var fields := rows[i];
      assert rows[i..][0] == fields && rows[i..][1..] == rows[i + 1..];
      var next := InterLine(cur, names, userIds, fields);
      if next.Err? {
        return next;
      }
      cur := next.value;
      i := i + 1;
    }
    assert rows[|rows|..] == [];
    return Ok(cur);
  }

  /** The body of the row loop of `load_inter_file`. */
  method InterLine(st: InterState, names: seq<string>, userIds: set<string>, fields: Row) returns (r: Result<InterState, PyError>)
    ensures r == InterRow(st, names, userIds, fields)
  {
    var n := |fields|;
    var ts := fields[n - 1];
    if n - 1 > |names| {
      return Err(IndexError);
    }
    var group := if ts in st.history then st.history[ts] else [];
    var history := st.history[ts := group + [Comprehension(names, fields, 0, n - 1)]];
    if names == [] {
      return Err(IndexError);
    }
    var users := st.users;
    if names[0] == "user_id" && fields[0] in userIds {
      var counted := CountInteraction(users, fields[0], if n - 1 >= 1 then Comprehension(names, fields, 1, n - 1) else []);
      if counted.Err? {
        return Err(counted.error);
      }
      users := counted.value;
    }
    var stamps := st.stamps;
    if ts !in stamps {
      stamps := stamps + [ts];
    }
    return Ok(InterState(history, users, stamps));
  }

  /** The pass over every user at the end of `load_inter_file`. */
  method AddHistoryTexts(users: map<string, Record>) returns (r: map<string, Record>)
    ensures r == HistoryTexts(users)
  {
    r := users;
    var remaining := users.Keys;
    while remaining != {}
      invariant remaining <= users.Keys == r.Keys
      invariant forall u :: u in r ==> r[u] == if u in remaining then users[u] else WithHistoryText(users[u])
      decreases remaining
    {
      var u :| u in remaining;
      if History in r[u] {
        r := r[u := r[u][HistoryText := PStr(Str(r[u][History]))]];
      }
      remaining := remaining - {u};
    }
  }

  /** `sorted(list(m.keys()))`. */
  method SortedKeys<V>(m: map<string, V>) returns (ks: seq<string>)
    ensures Sorted(ks) && Distinct(ks)
    ensures forall k :: k in ks <==> k in m
  {
    var remaining := m.Keys;
    var listed: seq<string> := [];
    while remaining != {}
      invariant remaining <= m.Keys
      invariant Distinct(listed)
      invariant forall k :: k in listed <==> k in m && k !in remaining
      decreases remaining
    {
      var k :| k in remaining;
      listed := listed + [k];
      remaining := remaining - {k};
    }
    ks := SortedCopy(listed);
    assert forall k :: k in ks <==> k in multiset(listed);
  }

  /** What the constructor computes from the files: the two mappings, the
      timestamp groups, the last interaction file's timestamp set (none
      when no interaction file was read), and whether the ids were listed
      and the interaction files read. */
  datatype Loaded = Loaded(
    users: map<string, Record>,
    items: map<string, map<string, string>>,
    history: map<string, seq<Interaction>>,
    stamps: Option<seq<string>>,
    indexed: bool)

  /** The user files, then the item files, then, when both mappings are
      non-empty, the interaction files; the first exception stops loading. */
  function Load(userFiles: seq<Tsv>, itemFiles: seq<Tsv>, interFiles: seq<Tsv>): Result<Loaded, PyError> {
    match UserFiles(map[], userFiles)
    case Err(e) => Err(e)
    case Ok(users) =>
      match ItemFiles(map[], itemFiles)
      case Err(e) => Err(e)
      case Ok(items) =>
        if users == map[] || items == map[] then Ok(Loaded(users, items, map[], None, false))
        else
          match InterFiles(InterState(map[], users, []), users.Keys, interFiles)
          case Err(e) => Err(e)
          case Ok(s) => Ok(Loaded(s.users, items, s.history, if interFiles == [] then None else Some(s.stamps), true))
  }

  /** The constructor's final test. */
  predicate IsValid(l: Loaded) {
    l.history != map[] && l.stamps.Some?
  }

  // ---------------------------------------------------------------------
  // The dataset object

  class Dataset {
    var userMapping: map<string, Record>
    var userIds: Option<seq<string>>
    var userFeatures: seq<string>
    var itemFeatures: seq<string>
    var itemMapping: map<string, map<string, string>>
    var interactionHistory: map<string, seq<Interaction>>
    /** `None` until an interaction file is read; while one is read, the set
        of its timestamps (duplicate-free, in the order first seen); sorted
        once the dataset is found valid. */
    var timestamps: Option<seq<string>>
    var itemIds: Option<seq<string>>
    var models: Entries<string, string>
    var datasetName: string
    var valid: bool

    /** The attribute initialisation at the top of the constructor. */
    constructor (models: Entries<string, string>, datasetName: string)
      ensures this.models == models && this.datasetName == datasetName
      ensures userMapping == map[] && itemMapping == map[] && interactionHistory == map[]
      ensures userIds == None && itemIds == None && timestamps == None
      ensures userFeatures == [HistoryLength] && itemFeatures == []
      ensures !valid
    {
      userMapping := map[];
      userIds := None;
      userFeatures := [HistoryLength];
      itemFeatures := [];
      itemMapping := map[];
      interactionHistory := map[];
      timestamps := None;
      itemIds := None;
      this.models := models;
      this.datasetName := datasetName;
      valid := false;
    }

    /** `get_features`: the user features followed by the item features. */
    function Features(): (fs: seq<string>)
      reads this
      ensures |fs| == |userFeatures| + |itemFeatures|
      ensures fs[..|userFeatures|] == userFeatures && fs[|userFeatures|..] == itemFeatures
    {
      userFeatures + itemFeatures
    }

    /** The object holds what loading computed: once listed, the ids are
        the keys of the mappings in sorted order; the dataset is valid
        exactly when loading found interactions and a timestamp set, and its
        timestamps are then that set, sorted. */
    ghost predicate Holds(l: Loaded)
      reads this
    {
      && userMapping == l.users && itemMapping == l.items && interactionHistory == l.history
      && (!l.indexed ==> userIds == None && itemIds == None)
      && (l.indexed ==>
            && userIds.Some? && Sorted(userIds.value) && Distinct(userIds.value)
            && (forall u :: u in userIds.value <==> u in l.users)
            && itemIds.Some? && Sorted(itemIds.value) && Distinct(itemIds.value)
            && (forall i :: i in itemIds.value <==> i in l.items))
      && valid == IsValid(l)
      && (valid ==> timestamps.Some? && Sorted(timestamps.value) && multiset(timestamps.value) == multiset(l.stamps.value))
      && (!valid ==> timestamps == l.stamps)
    }

    /** Reads a user file: its field names are appended to the user
        features, then each row updates the user mapping. */
    method LoadUserFeatures(file: Tsv) returns (err: Option<PyError>)
      modifies this
      ensures var r := UserRows(old(userMapping), file.names, file.rows);
        && (r.Err? ==> err == Some(r.error))
        && (r.Ok? ==> err.None? && userMapping == r.value && userFeatures == old(userFeatures) + file.names)
      ensures itemMapping == old(itemMapping) && itemFeatures == old(itemFeatures)
      ensures interactionHistory == old(interactionHistory) && timestamps == old(timestamps)
      ensures userIds == old(userIds) && itemIds == old(itemIds) && valid == old(valid)
      ensures models == old(models) && datasetName == old(datasetName)
    {
      var names := file.names;
      userFeatures := userFeatures + names;
      var r := ReadUserRows(userMapping, names, file.rows);
      if r.Err? {
        return Some(r.error);
      }
      userMapping := r.value;
      return None;
    }

    /** Reads an item file: its field names are appended to the item
        features, then each row replaces the record of its item. */
    method LoadItemFeatures(file: Tsv) returns (err: Option<PyError>)
      modifies this
      ensures var r := ItemRows(old(itemMapping), file.names, file.rows);
        && (r.Err? ==> err == Some(r.error))
        && (r.Ok? ==> err.None? && itemMapping == r.value && itemFeatures == old(itemFeatures) + file.names)
      ensures userMapping == old(userMapping) && userFeatures == old(userFeatures)
      ensures interactionHistory == old(interactionHistory) && timestamps == old(timestamps)
      ensures userIds == old(userIds) && itemIds == old(itemIds) && valid == old(valid)
      ensures models == old(models) && datasetName == old(datasetName)
    {
      var names := file.names;
      itemFeatures := itemFeatures + names;
      var r := ReadItemRows(itemMapping, names, file.rows);
      if r.Err? {
        return Some(r.error);
      }
      itemMapping := r.value;
      return None;
    }

    /** Reads an interaction file: the timestamp set starts empty, each row
        is grouped under its timestamp and counted in its user's history,
        and finally every user record gets the text of its history. */
    method LoadInterFile(file: Tsv) returns (err: Option<PyError>)
      requires userIds.Some?
      modifies this
      ensures var r := InterFile(InterState(old(interactionHistory), old(userMapping), []), IdSet(old(userIds).value), file);
        && (r.Err? ==> err == Some(r.error))
        && (r.Ok? ==> err.None? && interactionHistory == r.value.history && userMapping == r.value.users
                      && timestamps == Some(r.value.stamps))
      ensures itemMapping == old(itemMapping) && userFeatures == old(userFeatures) && itemFeatures == old(itemFeatures)
      ensures userIds == old(userIds) && itemIds == old(itemIds) && valid == old(valid)
      ensures models == old(models) && datasetName == old(datasetName)
    {
      timestamps := Some([]);
      var start := InterState(interactionHistory, userMapping, []);
      var r := ReadInterRows(start, file.names, IdSet(userIds.value), file.rows);
      if r.Err? {
        return Some(r.error);
      }
      interactionHistory := r.value.history;
      timestamps := Some(r.value.stamps);
      userMapping := AddHistoryTexts(r.value.users);
      return None;
    }

    /** `for user_file in user_files: self.load_user_features(...)`. */
    method LoadUserFiles(files: seq<Tsv>) returns (err: Option<PyError>)
      modifies this
      ensures var r := UserFiles(old(userMapping), files);
        && (r.Err? ==> err == Some(r.error))
        && (r.Ok? ==> err.None? && userMapping == r.value && userFeatures == old(userFeatures) + FileNames(files))
      ensures itemMapping == old(itemMapping) && itemFeatures == old(itemFeatures)
      ensures interactionHistory == old(interactionHistory) && timestamps == old(timestamps)
      ensures userIds == old(userIds) && itemIds == old(itemIds) && valid == old(valid)
      ensures models == old(models) && datasetName == old(datasetName)
    {
      var i := 0;
      while i < |files|
        invariant 0 <= i <= |files|
        invariant UserFiles(old(userMapping), files) == UserFiles(userMapping, files[i..])
        invariant old(userFeatures) + FileNames(files) == userFeatures + FileNames(files[i..])
        invariant itemMapping == old(itemMapping) && itemFeatures == old(itemFeatures)
        invariant interactionHistory == old(interactionHistory) && timestamps == old(timestamps)
        invariant userIds == old(userIds) && itemIds == old(itemIds) && valid == old(valid)
        invariant models == old(models) && datasetName == old(datasetName)
      {
        UserFilesStep(userMapping, files, i);
        FileNamesStep(files, i);
        err := LoadUserFeatures(files[i]);
        if err.Some? {
          return;
        }
        i := i + 1;
      }
      assert files[|files|..] == [];
      return None;
    }

    /** `for item_file in item_files: self.load_item_features(...)`. */
    method LoadItemFiles(files: seq<Tsv>) returns (err: Option<PyError>)
      modifies this
      ensures var r := ItemFiles(old(itemMapping), files);
        && (r.Err? ==> err == Some(r.error))
        && (r.Ok? ==> err.None? && itemMapping == r.value && itemFeatures == old(itemFeatures) + FileNames(files))
      ensures userMapping == old(userMapping) && userFeatures == old(userFeatures)
      ensures interactionHistory == old(interactionHistory) && timestamps == old(timestamps)
      ensures userIds == old(userIds) && itemIds == old(itemIds) && valid == old(valid)
      ensures models == old(models) && datasetName == old(datasetName)
    {
      var i := 0;
      while i < |files|
        invariant 0 <= i <= |files|
        invariant ItemFiles(old(itemMapping), files) == ItemFiles(itemMapping, files[i..])
        invariant old(itemFeatures) + FileNames(files) == itemFeatures + FileNames(files[i..])
        invariant userMapping == old(userMapping) && userFeatures == old(userFeatures)
        invariant interactionHistory == old(interactionHistory) && timestamps == old(timestamps)
        invariant userIds == old(userIds) && itemIds == old(itemIds) && valid == old(valid)
        invariant models == old(models) && datasetName == old(datasetName)
      {
        ItemFilesStep(itemMapping, files, i);
        FileNamesStep(files, i);
        err := LoadItemFeatures(files[i]);
        if err.Some? {
          return;
        }
        i := i + 1;
      }
      assert files[|files|..] == [];
      return None;
    }

    /** `for inter_file in inter_files: self.load_inter_file(...)`. */
    method LoadInterFiles(files: seq<Tsv>) returns (err: Option<PyError>)
      requires userIds.Some?
      modifies this
      ensures var r := InterFiles(InterState(old(interactionHistory), old(userMapping), []), IdSet(old(userIds).value), files);
        && (r.Err? ==> err == Some(r.error))
        && (r.Ok? ==> err.None? && interactionHistory == r.value.history && userMapping == r.value.users
                      && timestamps == if files == [] then old(timestamps) else Some(r.value.stamps))
      ensures itemMapping == old(itemMapping) && userFeatures == old(userFeatures) && itemFeatures == old(itemFeatures)
      ensures userIds == old(userIds) && itemIds == old(itemIds) && valid == old(valid)
      ensures models == old(models) && datasetName == old(datasetName)
    {
      ghost var ids := IdSet(userIds.value);
      var i := 0;
      while i < |files|
        invariant 0 <= i <= |files|
        invariant InterFiles(InterState(old(interactionHistory), old(userMapping), []), ids, files) ==
                  InterFiles(InterState(interactionHistory, userMapping, if i > 0 && timestamps.Some? then timestamps.value else []), ids, files[i..])
        invariant i == 0 ==> timestamps == old(timestamps)
        invariant i > 0 ==> timestamps.Some?
        invariant itemMapping == old(itemMapping) && userFeatures == old(userFeatures) && itemFeatures == old(itemFeatures)
        invariant userIds == old(userIds) && itemIds == old(itemIds) && valid == old(valid)
        invariant models == old(models) && datasetName == old(datasetName)
      {
        InterFilesStep(InterState(interactionHistory, userMapping, if i > 0 && timestamps.Some? then timestamps.value else []), ids, files, i);
        err := LoadInterFile(files[i]);
        if err.Some? {
          return;
        }
        i := i + 1;
      }
      assert files[|files|..] == [];
      return None;
    }

    /** `user_ids` and `item_ids`: the sorted keys of the two mappings. */
    method ListIds()
      modifies this
      ensures userIds.Some? && Sorted(userIds.value) && Distinct(userIds.value)
      ensures forall u :: u in userIds.value <==> u in userMapping
      ensures itemIds.Some? && Sorted(itemIds.value) && Distinct(itemIds.value)
      ensures forall i :: i in itemIds.value <==> i in itemMapping
      ensures userMapping == old(userMapping) && itemMapping == old(itemMapping)
      ensures interactionHistory == old(interactionHistory) && timestamps == old(timestamps) && valid == old(valid)
      ensures userFeatures == old(userFeatures) && itemFeatures == old(itemFeatures)
      ensures models == old(models) && datasetName == old(datasetName)
    {
      var users := SortedKeys(userMapping);
      var items := SortedKeys(itemMapping);
      userIds := Some(users);
      itemIds := Some(items);
    }

    /** The test at the end of the constructor: with interactions found and
        a timestamp set present, the timestamps are sorted and the dataset
        is valid. */
    method CheckValid()
      modifies this
      ensures var found := interactionHistory != map[] && old(timestamps).Some?;
        && valid == (found || old(valid))
        && (found ==> timestamps.Some? && Sorted(timestamps.value) && multiset(timestamps.value) == multiset(old(timestamps).value))
        && (!found ==> timestamps == old(timestamps))
      ensures userMapping == old(userMapping) && itemMapping == old(itemMapping) && interactionHistory == old(interactionHistory)
      ensures userIds == old(userIds) && itemIds == old(itemIds)
      ensures userFeatures == old(userFeatures) && itemFeatures == old(itemFeatures)
      ensures models == old(models) && datasetName == old(datasetName)
    {
      if interactionHistory != map[] && timestamps.Some? {
        var sorted := SortedCopy(timestamps.value);
        timestamps := Some(sorted);
        valid := true;
      }
    }
  }

  /** `Dataset(...)`: the constructor reads the user files, then the item
      files, then, when both mappings are non-empty, the interaction files.
      An exception raised while reading aborts construction. */
  method Open(userFiles: seq<Lines>, itemFiles: seq<Lines>, interFiles: seq<Lines>, models: Entries<string, string>, name: string)
    returns (r: Result<Dataset, PyError>)
    ensures Load(ParseAll(userFiles), ParseAll(itemFiles), ParseAll(interFiles)).Err? ==>
              r == Err(Load(ParseAll(userFiles), ParseAll(itemFiles), ParseAll(interFiles)).error)
    ensures Load(ParseAll(userFiles), ParseAll(itemFiles), ParseAll(interFiles)).Ok? ==>
              r.Ok? && r.value.Holds(Load(ParseAll(userFiles), ParseAll(itemFiles), ParseAll(interFiles)).value)
    ensures r.Ok? ==> && fresh(r.value)
                      && r.value.userFeatures == [HistoryLength] + FileNames(ParseAll(userFiles))
                      && r.value.itemFeatures == FileNames(ParseAll(itemFiles))
                      && r.value.models == models && r.value.datasetName == name
  {
    var users := ReadFiles(userFiles);
    var items := ReadFiles(itemFiles);
    var inters := ReadFiles(interFiles);
    r := Build(users, items, inters, models, name);
  }

  /** The constructor on files already read. */
  method Build(userFiles: seq<Tsv>, itemFiles: seq<Tsv>, interFiles: seq<Tsv>, models: Entries<string, string>, name: string)
    returns (r: Result<Dataset, PyError>)
    ensures Load(userFiles, itemFiles, interFiles).Err? ==> r == Err(Load(userFiles, itemFiles, interFiles).error)
    ensures Load(userFiles, itemFiles, interFiles).Ok? ==> r.Ok? && r.value.Holds(Load(userFiles, itemFiles, interFiles).value)
    ensures r.Ok? ==> && fresh(r.value)
                      && r.value.userFeatures == [HistoryLength] + FileNames(userFiles)
                      && r.value.itemFeatures == FileNames(itemFiles)
                      && r.value.models == models && r.value.datasetName == name
  {
    var d := new Dataset(models, name);
    var err := d.LoadUserFiles(userFiles);
    if err.Some? {
      return Err(err.value);
    }
    err := d.LoadItemFiles(itemFiles);
    if err.Some? {
      return Err(err.value);
    }
    if d.userMapping != map[] && d.itemMapping != map[] {
      d.ListIds();
      ghost var st := InterState(map[], d.userMapping, []);
      assert IdSet(d.userIds.value) == d.userMapping.Keys;
      err := d.LoadInterFiles(interFiles);
      if err.Some? {
        return Err(err.value);
      }
      InterFilesStamps(st, st.users.Keys, interFiles);
      d.CheckValid();
      LoadCases(userFiles, itemFiles, interFiles);
      ghost var l := Load(userFiles, itemFiles, interFiles).value;
      assert d.userMapping == l.users;
      assert d.itemMapping == l.items;
      assert d.interactionHistory == l.history;
      assert l.indexed;
      assert d.valid == IsValid(l);
      assert d.valid ==> d.timestamps.Some? && Sorted(d.timestamps.value) && multiset(d.timestamps.value) == multiset(l.stamps.value);
      assert !d.valid ==> d.timestamps == l.stamps;
      assert d.Holds(l);
    }
    return Ok(d);
  }

  /** The two outcomes of a successful `Load`: without listed ids nothing
      about interactions is kept; with them, the state is what the
      interaction files left. */
  lemma LoadCases(userFiles: seq<Tsv>, itemFiles: seq<Tsv>, interFiles: seq<Tsv>)
    requires Load(userFiles, itemFiles, interFiles).Ok?
    ensures UserFiles(map[], userFiles).Ok? && ItemFiles(map[], itemFiles).Ok?
    ensures !Load(userFiles, itemFiles, interFiles).value.indexed ==>
              Load(userFiles, itemFiles, interFiles).value.history == map[] &&
              Load(userFiles, itemFiles, interFiles).value.stamps == None
    ensures Load(userFiles, itemFiles, interFiles).value.indexed ==>
              var users := UserFiles(map[], userFiles).value;
              && InterFiles(InterState(map[], users, []), users.Keys, interFiles).Ok?
              && var s := InterFiles(InterState(map[], users, []), users.Keys, interFiles).value;
                 Load(userFiles, itemFiles, interFiles).value ==
                   Loaded(s.users, ItemFiles(map[], itemFiles).value, s.history, if interFiles == [] then None else Some(s.stamps), true)
  {
  }

  /** A loaded dataset is valid exactly when the user and item mappings
      were non-empty and some interaction file has a data row. */
  lemma ValidExactly(userFiles: seq<Tsv>, itemFiles: seq<Tsv>, interFiles: seq<Tsv>)
    requires Load(userFiles, itemFiles, interFiles).Ok?
    ensures IsValid(Load(userFiles, itemFiles, interFiles).value) <==>
              && Load(userFiles, itemFiles, interFiles).value.indexed
              && exists i :: 0 <= i < |interFiles| && interFiles[i].rows != []
  {
    var l := Load(userFiles, itemFiles, interFiles).value;
    LoadCases(userFiles, itemFiles, interFiles);
    if l.indexed {
      var users := UserFiles(map[], userFiles).value;
      InterFilesHistory(InterState(map[], users, []), users.Keys, interFiles);
    }
  }

  /** What a valid dataset holds: its timestamps (any permutation of the
      set the last interaction file left, such as the sorted one) are those
      of that file's rows, each once; the user ids still list exactly the
      users the user files gave; and when no user header overwrites the
      reserved fields, every history counter equals its history's length. */
  lemma ValidDataset(userFiles: seq<Tsv>, itemFiles: seq<Tsv>, interFiles: seq<Tsv>, timestamps: seq<string>)
    requires Load(userFiles, itemFiles, interFiles).Ok? && IsValid(Load(userFiles, itemFiles, interFiles).value)
    requires multiset(timestamps) == multiset(Load(userFiles, itemFiles, interFiles).value.stamps.value)
    ensures interFiles != []
    ensures Distinct(timestamps)
    ensures forall t :: t in timestamps <==> t in RowStamps(Last(interFiles).rows)
    ensures Load(userFiles, itemFiles, interFiles).value.users.Keys == UserFiles(map[], userFiles).value.Keys
    ensures (forall i :: 0 <= i < |userFiles| ==> NoReserved(userFiles[i].names)) ==>
              AllCounted(Load(userFiles, itemFiles, interFiles).value.users)
  {
    LoadCases(userFiles, itemFiles, interFiles);
    var users := UserFiles(map[], userFiles).value;
    var st := InterState(map[], users, []);
    var s := InterFiles(st, users.Keys, interFiles).value;
    InterFilesStamps(st, users.Keys, interFiles);
    PermutationDistinct(s.stamps, timestamps);
    assert forall t :: t in timestamps <==> t in multiset(s.stamps);
    if forall i :: 0 <= i < |userFiles| ==> NoReserved(userFiles[i].names) {
      UserFilesCounted(map[], userFiles);
      InterFilesCounted(st, users.Keys, interFiles);
    }
  }
}
