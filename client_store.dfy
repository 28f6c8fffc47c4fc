/** The `clients` table and the five store operations over it. The table is a map from id to
    row, each call is one atomic step, and a database failure is the parameter `dbOk`: when
    it is false the call changes nothing and fails with the operation's fixed message. */
module ClientStore {
  import opened Wrappers
  import opened Text

  /** A row of the table (the server-managed timestamps are not modelled). */
  datatype Client = Client(id: string, name: string, technicalKnowledge: int, description: string)

  /** A partial update: `None` is a field left `undefined`. */
  datatype Patch = Patch(name: Option<string>, technicalKnowledge: Option<int>, description: Option<string>)

  /** The columns an update can assign. */
  datatype Column = NameColumn | TechnicalKnowledgeColumn | DescriptionColumn

  /** A value bound to a `?` placeholder. */
  datatype SqlValue = SqlText(s: string) | SqlNumber(n: int)

  const FetchFailed: string := "Failed to fetch clients"
  const FetchOneFailed: string := "Failed to fetch client"
  const CreateFailed: string := "Failed to create client"
  const UpdateFailed: string := "Failed to update client"
  const DeleteFailed: string := "Failed to delete client"

  // ----- ordering by name -----

  /** `a` sorts no later than `b`: lexicographic order on code points. */
  predicate NameLe(a: string, b: string) {
    a == [] || (b != [] && (a[0] < b[0] || (a[0] == b[0] && NameLe(a[1..], b[1..]))))
  }

  lemma {:induction false} NameLeTotal(a: string, b: string)
    ensures NameLe(a, b) || NameLe(b, a)
  {
    if a != [] && b != [] && a[0] == b[0] {
      NameLeTotal(a[1..], b[1..]);
    }
  }

  lemma {:induction false} NameLeTrans(a: string, b: string, c: string)
    requires NameLe(a, b) && NameLe(b, c)
    ensures NameLe(a, c)
  {
    if a != [] && a[0] == b[0] && b[0] == c[0] {
      NameLeTrans(a[1..], b[1..], c[1..]);
    }
  }

  /** `ORDER BY name ASC`. */
  ghost predicate SortedByName(s: seq<Client>) {
    forall i, j :: 0 <= i < j < |s| ==> NameLe(s[i].name, s[j].name)
  }

  /** Puts `c` after every row whose name sorts no later than its own. */
  function InsertByName(s: seq<Client>, c: Client): (r: seq<Client>)
    ensures |r| == |s| + 1
    ensures multiset(r) == multiset(s) + multiset{c}
  {
    if s == [] || !NameLe(s[0].name, c.name) then [c] + s
    else
      assert s == [s[0]] + s[1..];
      [s[0]] + InsertByName(s[1..], c)
  }

  lemma {:induction false} InsertKeepsSorted(s: seq<Client>, c: Client)
    requires SortedByName(s)
    ensures SortedByName(InsertByName(s, c))
  {
    var r := InsertByName(s, c);
    if s == [] {
    } else if !NameLe(s[0].name, c.name) {
      NameLeTotal(s[0].name, c.name);
      forall j | 1 <= j < |r| ensures NameLe(c.name, r[j].name) {
        if j > 1 {
          NameLeTrans(c.name, s[0].name, r[j].name);
        }
      }
    } else {
      var t := InsertByName(s[1..], c);
      InsertKeepsSorted(s[1..], c);
      forall j | 0 <= j < |t| ensures NameLe(s[0].name, t[j].name) {
        assert t[j] in multiset(t);
        if t[j] != c {
          assert t[j] in multiset(s[1..]);
          var k :| 0 <= k < |s[1..]| && s[1..][k] == t[j];
          assert s[k + 1] == t[j];
        }
      }
      assert forall j :: 1 <= j < |r| ==> r[j] == t[j - 1];
    }
  }

  // ----- the SET list of an update -----

  function ColumnName(c: Column): string {
    match c
    case NameColumn => "name"
    case TechnicalKnowledgeColumn => "technical_knowledge"
    case DescriptionColumn => "description"
  }

  /** The position of a column in the fixed order name, technical_knowledge, description. */
  function Rank(c: Column): nat {
    match c
    case NameColumn => 0
    case TechnicalKnowledgeColumn => 1
    case DescriptionColumn => 2
  }

  /** The patch gives this column a value. */
  predicate IsSet(p: Patch, c: Column) {
    match c
    case NameColumn => p.name.Some?
    case TechnicalKnowledgeColumn => p.technicalKnowledge.Some?
    case DescriptionColumn => p.description.Some?
  }

  /** The value the patch gives a column. */
  function PatchValue(p: Patch, c: Column): SqlValue
    requires IsSet(p, c)
  {
    match c
    case NameColumn => SqlText(p.name.value)
    case TechnicalKnowledgeColumn => SqlNumber(p.technicalKnowledge.value)
    case DescriptionColumn => SqlText(p.description.value)
  }

  /** The assignments joined with ", ". */
  function Assignments(fields: seq<Column>): string {
    Join(AssignmentTexts(fields), ", ")
  }

  function AssignmentTexts(fields: seq<Column>): (r: seq<string>)
    ensures |r| == |fields|
    ensures forall i :: 0 <= i < |fields| ==> r[i] == ColumnName(fields[i]) + " = ?"
  {
    if fields == [] then [] else [ColumnName(fields[0]) + " = ?"] + AssignmentTexts(fields[1..])
  }

  /** The statement `UPDATE clients SET ${fields} WHERE id = ?`. */
  function UpdateStatement(fields: seq<Column>): string {
    "UPDATE clients SET " + Assignments(fields) + " WHERE id = ?"
  }

  /** The column order of the SET list. */
  const AllColumns: seq<Column> := [NameColumn, TechnicalKnowledgeColumn, DescriptionColumn]

  /** The columns of `cols` the patch sets, in the order of `cols`. */
  function Filtered(cols: seq<Column>, p: Patch): (r: seq<Column>)
    ensures forall c :: c in r <==> c in cols && IsSet(p, c)
  {
    if cols == [] then []
    else (if IsSet(p, cols[0]) then [cols[0]] else []) + Filtered(cols[1..], p)
  }

  /** The columns an update assigns: those the patch sets, in the fixed order. */
  function SetColumns(p: Patch): seq<Column> {
    Filtered(AllColumns, p)
  }

  /** The filter of the fixed order, spelled out. */
  lemma SetColumnsUnfold(p: Patch)
    ensures SetColumns(p) == (if p.name.Some? then [NameColumn] else [])
                             + (if p.technicalKnowledge.Some? then [TechnicalKnowledgeColumn] else [])
                             + (if p.description.Some? then [DescriptionColumn] else [])
  {
    var cols := [NameColumn, TechnicalKnowledgeColumn, DescriptionColumn];
    assert cols[1..] == [TechnicalKnowledgeColumn, DescriptionColumn];
    assert cols[1..][1..] == [DescriptionColumn];
    assert cols[1..][1..][1..] == [];
    var f0 := Filtered(cols[1..][1..][1..], p);
    var f1 := Filtered(cols[1..][1..], p);
    var f2 := Filtered(cols[1..], p);
    assert f0 == [];
    assert f1 == (if p.description.Some? then [DescriptionColumn] else []) + f0;
    assert f2 == (if p.technicalKnowledge.Some? then [TechnicalKnowledgeColumn] else []) + f1;
    assert Filtered(cols, p) == (if p.name.Some? then [NameColumn] else []) + f2;
  }

  /** The SET list holds each column the patch sets, once, in the order name,
      technical_knowledge, description, and is empty exactly for the all-undefined patch. */
  lemma SetColumnsShape(p: Patch)
    ensures forall c :: c in SetColumns(p) <==> IsSet(p, c)
    ensures forall i, j :: 0 <= i < j < |SetColumns(p)| ==> Rank(SetColumns(p)[i]) < Rank(SetColumns(p)[j])
    ensures SetColumns(p) == [] <==> p == Patch(None, None, None)
  {
    SetColumnsUnfold(p);
  }

  /** Builds `updateFields` and `updateValues` by pushing, for each field the patch sets, its
      assignment and its value, and then the id. */
  method BuildUpdate(id: string, patch: Patch) returns (fields: seq<Column>, values: seq<SqlValue>)
    ensures fields == SetColumns(patch)
    ensures |values| == |fields| + 1 && values[|fields|] == SqlText(id)
    ensures forall i :: 0 <= i < |fields| ==> IsSet(patch, fields[i]) && values[i] == PatchValue(patch, fields[i])
  {
    fields, values := [], [];
    fields, values := PushIfSet(patch, NameColumn, fields, values);
    fields, values := PushIfSet(patch, TechnicalKnowledgeColumn, fields, values);
    fields, values := PushIfSet(patch, DescriptionColumn, fields, values);
    values := values + [SqlText(id)];
    SetColumnsInPushOrder(patch);
  }

  /** The SET list as the three blocks of `updateClient` build it, one after the other. */
  lemma SetColumnsInPushOrder(p: Patch)
    ensures SetColumns(p) == []
                             + (if IsSet(p, NameColumn) then [NameColumn] else [])
                             + (if IsSet(p, TechnicalKnowledgeColumn) then [TechnicalKnowledgeColumn] else [])
                             + (if IsSet(p, DescriptionColumn) then [DescriptionColumn] else [])
  {
    SetColumnsUnfold(p);
    assert [] + (if IsSet(p, NameColumn) then [NameColumn] else []) == (if IsSet(p, NameColumn) then [NameColumn] else []);
  }

  /** One `if (client.x !== undefined)` block: pushes the column's assignment and its value
      when the patch sets the column, and nothing otherwise. */
  method PushIfSet(patch: Patch, col: Column, fields: seq<Column>, values: seq<SqlValue>)
    returns (fields': seq<Column>, values': seq<SqlValue>)
    requires Pushed(patch, fields, values)
    ensures fields' == fields + (if IsSet(patch, col) then [col] else [])
    ensures Pushed(patch, fields', values')
  {
    fields', values' := fields, values;
    if IsSet(patch, col) {
      fields', values' := fields + [col], values + [PatchValue(patch, col)];
    }
  }

  /** Each pushed value is the patch's value for the column pushed with it. */
  predicate Pushed(p: Patch, fields: seq<Column>, values: seq<SqlValue>) {
    |values| == |fields|
    && forall i :: 0 <= i < |fields| ==> IsSet(p, fields[i]) && values[i] == PatchValue(p, fields[i])
  }

  /** One `?` per assignment and one for the id. */
  lemma PlaceholderCount(fields: seq<Column>)
    ensures Count(UpdateStatement(fields), '?') == |fields| + 1
  {
    AssignmentsPlaceholders(fields);
    StatementHead("UPDATE clients SET ");
    PlaceholderTail(" WHERE id = ?");
    CountConcat("UPDATE clients SET ", Assignments(fields), '?');
    CountConcat("UPDATE clients SET " + Assignments(fields), " WHERE id = ?", '?');
  }

  /** The text before the SET list holds no placeholder. */
  lemma StatementHead(head: string)
    requires head == "UPDATE clients SET "
    ensures Count(head, '?') == 0
  {
    CountAbsent(head, '?');
  }

  /** The text after a column name, and the text after the SET list, each hold one
      placeholder, at their end. */
  lemma PlaceholderTail(tail: string)
    requires tail == " = ?" || tail == " WHERE id = ?"
    ensures Count(tail, '?') == 1
  {
    assert tail[|tail| - 1] == '?';
    CountOnlyLast(tail, '?');
  }

  /** A text whose only occurrence of `c` is its last character counts `c` once. */
  lemma CountOnlyLast(s: string, c: char)
    requires s != [] && s[|s| - 1] == c && c !in s[..|s| - 1]
    ensures Count(s, c) == 1
  {
    CountAbsent(s[..|s| - 1], c);
    CountConcat(s[..|s| - 1], [c], c);
    assert s[..|s| - 1] + [c] == s;
  }

  /** One placeholder per assignment in the joined SET list. */
  lemma AssignmentsPlaceholders(fields: seq<Column>)
    ensures Count(Assignments(fields), '?') == |fields|
  {
    var texts := AssignmentTexts(fields);
    forall k | 0 <= k < |texts| ensures Count(texts[k], '?') == 1 {
      AssignmentPlaceholder(fields[k]);
    }
    CountAbsent(", ", '?');
    CountJoin(texts, ", ", '?');
  }

  lemma AssignmentPlaceholder(c: Column)
    ensures Count(ColumnName(c) + " = ?", '?') == 1
  {
    ColumnNamePlain(c);
    PlaceholderTail(" = ?");
    CountConcat(ColumnName(c), " = ?", '?');
  }

  /** No column name holds a placeholder. */
  lemma ColumnNamePlain(c: Column)
    ensures Count(ColumnName(c), '?') == 0
  {
    CountAbsent(ColumnName(c), '?');
  }

  lemma {:induction false} CountAbsent(s: string, c: char)
    requires c !in s
    ensures Count(s, c) == 0
  {
    if s != [] {
      CountAbsent(s[1..], c);
    }
  }

  /** Placeholders in a join: those of the parts, plus those of the separators. */
  lemma {:induction false} CountJoin(parts: seq<string>, sep: string, c: char)
    requires Count(sep, c) == 0
    requires forall k :: 0 <= k < |parts| ==> Count(parts[k], c) == 1
    ensures Count(Join(parts, sep), c) == |parts|
  {
    if |parts| > 1 {
      CountJoin(parts[1..], sep, c);
      CountConcat(parts[0], sep, c);
      CountConcat(parts[0] + sep, Join(parts[1..], sep), c);
    }
  }

  /** The row after the patch: every field the patch sets takes its value, the rest stay. */
  function ApplyPatch(c: Client, p: Patch): Client {
    Client(c.id, p.name.GetOr(c.name), p.technicalKnowledge.GetOr(c.technicalKnowledge),
           p.description.GetOr(c.description))
  }

  /** Executes one `column = ?` assignment with its bound value. A value of the other type
      never reaches a column here (see `BuildUpdate`), and leaves the row as it is. */
  function Assign(row: Client, col: Column, v: SqlValue): Client {
    match (col, v)
    case (NameColumn, SqlText(s)) => row.(name := s)
    case (TechnicalKnowledgeColumn, SqlNumber(n)) => row.(technicalKnowledge := n)
    case (DescriptionColumn, SqlText(s)) => row.(description := s)
    case _ => row
  }

  /** Executes the SET list left to right, the i-th placeholder bound to the i-th value. */
  function AssignAll(row: Client, fields: seq<Column>, values: seq<SqlValue>): Client
    requires |values| >= |fields|
    decreases |fields|
  {
    if fields == [] then row else AssignAll(Assign(row, fields[0], values[0]), fields[1..], values[1..])
  }

  /** Executing the SET list `BuildUpdate` produces is applying the patch: the placeholders
      line up with the values, and only the fields the patch sets change. */
  lemma SetListAppliesPatch(row: Client, patch: Patch, values: seq<SqlValue>)
    requires |values| >= |SetColumns(patch)|
    requires forall i :: 0 <= i < |SetColumns(patch)| ==> values[i] == PatchValue(patch, SetColumns(patch)[i])
    ensures AssignAll(row, SetColumns(patch), values) == ApplyPatch(row, patch)
  {
    SetColumnsUnfold(patch);
  }

  // ----- the table -----

  class ClientTable {
    var rows: map<string, Client>

    /** Every row is stored under its own id. */
    ghost predicate Valid()
      reads this
    {
      forall id :: id in rows ==> rows[id].id == id
    }

    constructor ()
      ensures rows == map[] && Valid()
    {
      rows := map[];
    }

    /** `getClients`: every row, ordered by name. */
    method GetClients(dbOk: bool) returns (r: Result<seq<Client>>)
      requires Valid()
      ensures !dbOk ==> r == Err(FetchFailed)
      ensures dbOk ==> r.Ok?
      ensures r.Ok? ==> SortedByName(r.value) && |r.value| == |rows|
      ensures r.Ok? ==> forall c :: c in r.value <==> c.id in rows && rows[c.id] == c
    {
      if !dbOk {
        return Err(FetchFailed);
      }
      var remaining := rows.Keys;
      var listing: seq<Client> := [];
      while remaining != {}
        invariant remaining <= rows.Keys
        invariant SortedByName(listing)
        invariant |listing| + |remaining| == |rows|
        invariant forall c :: c in listing ==> c.id in rows && rows[c.id] == c && c.id !in remaining
        invariant forall id :: id in rows && id !in remaining ==> rows[id] in listing
        decreases |remaining|
      {
        var id :| id in remaining;
        InsertKeepsSorted(listing, rows[id]);
        var next := InsertByName(listing, rows[id]);
        assert forall c :: c in next <==> c in listing || c == rows[id] by {
          assert forall c :: c in next <==> c in multiset(next);
        }
        listing := next;
        remaining := remaining - {id};
      }
      r := Ok(listing);
    }

    /** `getClientById`: the row with that id, or none. */
    function GetClientById(id: string, dbOk: bool): (r: Result<Option<Client>>)
      requires Valid()
      reads this
      ensures !dbOk <==> r == Err(FetchOneFailed)
      ensures r.Ok? ==> (r.value.Some? <==> id in rows)
      ensures r.Ok? && r.value.Some? ==> r.value.value.id == id && r.value.value == rows[id]
    {
      if !dbOk then Err(FetchOneFailed)
      else if id in rows then Ok(Some(rows[id]))
      else Ok(None)
    }

    /** `createClient`: inserts the row and returns it as read back by its id. The id is the
        primary key, so an id already present fails like any other database error. */
    method CreateClient(c: Client, dbOk: bool) returns (r: Result<Client>)
      requires Valid()
      modifies this
      ensures Valid()
      ensures (!dbOk || c.id in old(rows)) ==> r == Err(CreateFailed) && rows == old(rows)
      ensures dbOk && c.id !in old(rows) ==> r == Ok(c) && rows == old(rows)[c.id := c]
      ensures r.Ok? ==> GetClientById(c.id, true) == Ok(Some(c))
    {
      if !dbOk || c.id in rows {
        return Err(CreateFailed);
      }
      rows := rows[c.id := c];
      var read := GetClientById(c.id, true);
      r := Ok(read.value.value);
    }

    /** `updateClient`: runs `UPDATE clients SET ... WHERE id = ?` with the SET list built
        from the patch, then reads the row back. An empty SET list is invalid SQL and fails;
        an id with no row updates nothing and reads back nothing. */
    method UpdateClient(id: string, patch: Patch, dbOk: bool) returns (r: Result<Option<Client>>)
      requires Valid()
      modifies this
      ensures Valid()
      ensures (!dbOk || patch == Patch(None, None, None)) ==> r == Err(UpdateFailed) && rows == old(rows)
      ensures dbOk && patch != Patch(None, None, None) && id !in old(rows) ==> r == Ok(None) && rows == old(rows)
      ensures dbOk && patch != Patch(None, None, None) && id in old(rows) ==>
                rows == old(rows)[id := ApplyPatch(old(rows)[id], patch)] && r == Ok(Some(rows[id]))
    {
      var fields, values := BuildUpdate(id, patch);
      SetColumnsShape(patch);
      if !dbOk || fields == [] {
        return Err(UpdateFailed);
      }
      // `WHERE id = ?` is bound to the last value, the id.
      var key := values[|fields|].s;
      if key in rows {
        SetListAppliesPatch(rows[key], patch, values);
        rows := rows[key := AssignAll(rows[key], fields, values)];
      }
      var read := GetClientById(id, true);
      r := Ok(read.value);
    }

    /** `deleteClient`: removes the row if there is one; a missing id is no error. */
    method DeleteClient(id: string, dbOk: bool) returns (r: Result<()>)
      requires Valid()
      modifies this
      ensures Valid()
      ensures !dbOk ==> r == Err(DeleteFailed) && rows == old(rows)
      ensures dbOk ==> r == Ok(()) && rows == old(rows) - {id}
      ensures dbOk ==> GetClientById(id, true) == Ok(None)
    {
      if !dbOk {
        return Err(DeleteFailed);
      }
      rows := rows - {id};
      r := Ok(());
    }
  }

  /** Applying a patch twice is applying it once. */
  lemma PatchIdempotent(c: Client, p: Patch)
    ensures ApplyPatch(ApplyPatch(c, p), p) == ApplyPatch(c, p)
  {
  }

  /** The empty patch changes nothing, and a patch never changes the id. */
  lemma PatchKeepsIdentity(c: Client, p: Patch)
    ensures ApplyPatch(c, Patch(None, None, None)) == c
    ensures ApplyPatch(c, p).id == c.id
  {
  }
}
