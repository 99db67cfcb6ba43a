/** The statements that apply a batch of index edits, and what executing them does to a table's indexes. */
module IndexDdl {
  import opened Wrappers

  datatype Index = Index(columns: seq<string>, isUnique: bool, indexType: string)

  datatype IndexEdit = IndexEdit(name: string, newName: string, newColumns: seq<string>, newUnique: bool,
                                 newIndexType: string, dirty: bool, dropped: bool, isNew: bool)

  datatype Statement = Drop(name: string) | Create(name: string, index: Index)

  type Indexes = map<string, Index>

  // ---------------------------------------------------------------- the generated statements

  /** Whether the server's index of this name goes. */
  predicate Drops(e: IndexEdit) {
    !e.isNew && (e.dropped || e.dirty)
  }

  predicate Creates(e: IndexEdit) {
    !e.dropped && e.dirty
  }

  function NewIndex(e: IndexEdit): Index {
    Index(e.newColumns, e.newUnique, if e.newIndexType == "" then "BTREE" else e.newIndexType)
  }

  function DropStatements(edits: seq<IndexEdit>): seq<Statement> {
    if edits == [] then []
    else
      var last := edits[|edits| - 1];
      DropStatements(edits[..|edits| - 1]) + if Drops(last) then [Drop(last.name)] else []
  }

  function CreateStatements(edits: seq<IndexEdit>): seq<Statement> {
    if edits == [] then []
    else
      var last := edits[|edits| - 1];
      CreateStatements(edits[..|edits| - 1]) + if Creates(last) then [Create(last.newName, NewIndex(last))] else []
  }

  /** What each kind of edit asks for: nothing for an index left alone or for a new one taken back; a drop for one taken
      away; a create for a new one filled in; both for a changed one. The created index is the edited one, a B-tree
      unless it says otherwise. */
  lemma EditKinds(e: IndexEdit)
    ensures !e.dirty && !e.dropped ==> DropStatements([e]) == [] && CreateStatements([e]) == []
    ensures e.isNew && e.dropped ==> DropStatements([e]) == [] && CreateStatements([e]) == []
    ensures !e.isNew && e.dropped ==> DropStatements([e]) == [Drop(e.name)] && CreateStatements([e]) == []
    ensures e.dirty && !e.dropped ==>
              exists t :: (t == e.newIndexType || (t == "BTREE" && e.newIndexType == "")) && t != "" &&
                     CreateStatements([e]) == [Create(e.newName, Index(e.newColumns, e.newUnique, t))]
    ensures e.dirty && !e.dropped ==> DropStatements([e]) == if e.isNew then [] else [Drop(e.name)]
  {
    assert [e][..0] == [];
    assert DropStatements([e]) == if Drops(e) then [Drop(e.name)] else [];
    assert CreateStatements([e]) == if Creates(e) then [Create(e.newName, NewIndex(e))] else [];
  }

  method GenerateBatchIndexDDL(edits: seq<IndexEdit>) returns (ddls: seq<Statement>)
    ensures ddls == DropStatements(edits) + CreateStatements(edits)
  {
    ddls := [];
    for i := 0 to |edits|
      invariant ddls == DropStatements(edits[..i])
    {
      var e := edits[i];
      assert edits[..i + 1][..i] == edits[..i];
      if e.isNew {
        continue;
      }
      if e.dropped {
        ddls := ddls + [Drop(e.name)];
      } else if e.dirty {
        ddls := ddls + [Drop(e.name)];
      }
    }
    assert edits[..|edits|] == edits;
    for i := 0 to |edits|
      invariant ddls == DropStatements(edits) + CreateStatements(edits[..i])
    {
      var e := edits[i];
      assert edits[..i + 1][..i] == edits[..i];
      if !e.dropped && e.dirty {
        ddls := ddls + [Create(e.newName, NewIndex(e))];
      }
    }
  }

  // ---------------------------------------------------------------- executing them

  /** Dropping a missing index or creating an existing one is an error. */
  function Execute(m: Indexes, statement: Statement): Option<Indexes> {
    match statement
    case Drop(name) => if name in m then Some(m - {name}) else None
    case Create(name, index) => if name in m then None else Some(m[name := index])
  }

  /** All statements in order; the first error ends it. */
  function ExecuteAll(m: Indexes, statements: seq<Statement>): Option<Indexes> {
    if statements == [] then Some(m)
    else
      var before := ExecuteAll(m, statements[..|statements| - 1]);
      if before.None? then None else Execute(before.value, statements[|statements| - 1])
  }

  lemma ExecuteSnoc(m: Indexes, statements: seq<Statement>, last: Statement)
    ensures var before := ExecuteAll(m, statements);
            ExecuteAll(m, statements + [last]) == if before.None? then None else Execute(before.value, last)
  {
    assert (statements + [last])[..|statements|] == statements;
  }

  lemma {:induction false} ExecuteSplit(m: Indexes, a: seq<Statement>, b: seq<Statement>)
    ensures var between := ExecuteAll(m, a);
            ExecuteAll(m, a + b) == if between.None? then None else ExecuteAll(between.value, b)
    decreases |b|
  {
    if b == [] {
      assert a + b == a;
    } else {
      var front, last := b[..|b| - 1], b[|b| - 1];
      ExecuteSplit(m, a, front);
      ExecuteSnoc(m, a + front, last);
      assert a + b == (a + front) + [last];
    }
  }

  // ---------------------------------------------------------------- what the edits ask for

  predicate Touched(edits: seq<IndexEdit>, name: string) {
    exists i | 0 <= i < |edits| :: Drops(edits[i]) && edits[i].name == name
  }

  /** Each index to go is there, and goes once. */
  ghost predicate DropsFit(m: Indexes, edits: seq<IndexEdit>) {
    && (forall i | 0 <= i < |edits| && Drops(edits[i]) :: edits[i].name in m)
    && forall i, j | 0 <= i < j < |edits| && Drops(edits[i]) && Drops(edits[j]) :: edits[i].name != edits[j].name
  }

  /** Each name to come is free, and comes once. */
  ghost predicate CreatesFit(m: Indexes, edits: seq<IndexEdit>) {
    && (forall i | 0 <= i < |edits| && Creates(edits[i]) :: edits[i].newName !in m)
    && forall i, j | 0 <= i < j < |edits| && Creates(edits[i]) && Creates(edits[j]) ::
         edits[i].newName != edits[j].newName
  }

  /** The indexes no edit drops. */
  function Untouched(m: Indexes, edits: seq<IndexEdit>): Indexes {
    map name | name in m && !Touched(edits, name) :: m[name]
  }

  /** `result` is `original` with the edits made: untouched indexes as they were, the edited ones under their new
      names, and nothing else. */
  ghost predicate Edited(original: Indexes, edits: seq<IndexEdit>, result: Indexes) {
    && (forall name :: name in result <==> name in Untouched(original, edits) || Wanted(edits, name))
    && (forall name | name in Untouched(original, edits) :: result[name] == original[name])
    && forall i | 0 <= i < |edits| && Creates(edits[i]) :: result[edits[i].newName] == NewIndex(edits[i])
  }

  predicate Wanted(edits: seq<IndexEdit>, name: string) {
    exists i | 0 <= i < |edits| :: Creates(edits[i]) && edits[i].newName == name
  }

  lemma TouchedSnoc(front: seq<IndexEdit>, last: IndexEdit, name: string)
    ensures Touched(front + [last], name) <==> Touched(front, name) || (Drops(last) && last.name == name)
  {
    var all := front + [last];
    assert all[|front|] == last;
    if Touched(front, name) {
      var i :| 0 <= i < |front| && Drops(front[i]) && front[i].name == name;
      assert Drops(all[i]) && all[i].name == name;
    }
  }

  lemma DropsFitSnoc(m: Indexes, front: seq<IndexEdit>, last: IndexEdit)
    ensures DropsFit(m, front + [last])
       <==> DropsFit(m, front) && (Drops(last) ==> last.name in m && !Touched(front, last.name))
  {
    var all := front + [last];
    assert all[|front|] == last;
    assert forall i | 0 <= i < |front| :: front[i] == all[i];
  }

  lemma UntouchedSnoc(m: Indexes, front: seq<IndexEdit>, last: IndexEdit)
    ensures Untouched(m, front + [last])
            == if Drops(last) then Untouched(m, front) - {last.name} else Untouched(m, front)
  {
    forall name
      ensures Touched(front + [last], name) <==> Touched(front, name) || (Drops(last) && last.name == name)
    {
      TouchedSnoc(front, last, name);
    }
  }

  lemma {:induction false} ExecuteDrops(m: Indexes, edits: seq<IndexEdit>)
    ensures ExecuteAll(m, DropStatements(edits)) == if DropsFit(m, edits) then Some(Untouched(m, edits)) else None
  {
    if edits == [] {
      assert Untouched(m, edits) == m;
    } else {
      var front, last := edits[..|edits| - 1], edits[|edits| - 1];
      assert edits == front + [last];
      ExecuteDrops(m, front);
      DropsFitSnoc(m, front, last);
      UntouchedSnoc(m, front, last);
      if Drops(last) {
        ExecuteSnoc(m, DropStatements(front), Drop(last.name));
      } else {
        assert DropStatements(edits) == DropStatements(front);
      }
    }
  }

  /** The indexes the edits create, the last one under a name winning. */
  function Created(edits: seq<IndexEdit>): Indexes {
    if edits == [] then map[]
    else
      var front, last := edits[..|edits| - 1], edits[|edits| - 1];
      if Creates(last) then Created(front)[last.newName := NewIndex(last)] else Created(front)
  }

  lemma WantedSnoc(front: seq<IndexEdit>, last: IndexEdit, name: string)
    ensures Wanted(front + [last], name) <==> Wanted(front, name) || (Creates(last) && last.newName == name)
  {
    var all := front + [last];
    assert all[|front|] == last;
    if Wanted(front, name) {
      var i :| 0 <= i < |front| && Creates(front[i]) && front[i].newName == name;
      assert Creates(all[i]) && all[i].newName == name;
    }
  }

  lemma {:induction false} CreatedIsWanted(edits: seq<IndexEdit>, name: string)
    ensures name in Created(edits) <==> Wanted(edits, name)
  {
    if edits != [] {
      var front, last := edits[..|edits| - 1], edits[|edits| - 1];
      assert edits == front + [last];
      CreatedIsWanted(front, name);
      WantedSnoc(front, last, name);
    }
  }

  lemma CreatesFitSnoc(m: Indexes, front: seq<IndexEdit>, last: IndexEdit)
    ensures CreatesFit(m, front + [last])
       <==> CreatesFit(m, front) && (Creates(last) ==> last.newName !in m && !Wanted(front, last.newName))
  {
    var all := front + [last];
    assert all[|front|] == last;
    assert forall i | 0 <= i < |front| :: front[i] == all[i];
  }

  lemma PutBehind(m: Indexes, created: Indexes, name: string, index: Index)
    ensures m + created[name := index] == (m + created)[name := index]
  {
  }

  lemma {:induction false} ExecuteCreates(m: Indexes, edits: seq<IndexEdit>)
    ensures ExecuteAll(m, CreateStatements(edits)) == if CreatesFit(m, edits) then Some(m + Created(edits)) else None
  {
    if edits == [] {
      assert m + Created(edits) == m;
    } else {
      var front, last := edits[..|edits| - 1], edits[|edits| - 1];
      assert edits == front + [last];
      ExecuteCreates(m, front);
      CreatesFitSnoc(m, front, last);
      if Creates(last) {
        CreatedIsWanted(front, last.newName);
        ExecuteSnoc(m, CreateStatements(front), Create(last.newName, NewIndex(last)));
        PutBehind(m, Created(front), last.newName, NewIndex(last));
      } else {
        assert CreateStatements(edits) == CreateStatements(front);
      }
    }
  }

  lemma {:induction false} CreatedValue(m: Indexes, edits: seq<IndexEdit>, i: nat)
    requires CreatesFit(m, edits) && i < |edits| && Creates(edits[i])
    ensures edits[i].newName in Created(edits) && Created(edits)[edits[i].newName] == NewIndex(edits[i])
  {
    var front, last := edits[..|edits| - 1], edits[|edits| - 1];
    assert edits == front + [last];
    if i < |front| {
      CreatesFitSnoc(m, front, last);
      CreatedValue(m, front, i);
      assert Creates(last) ==> edits[i].newName != last.newName;
    }
  }

  lemma CreatedIsEdited(original: Indexes, edits: seq<IndexEdit>)
    requires CreatesFit(Untouched(original, edits), edits)
    ensures Edited(original, edits, Untouched(original, edits) + Created(edits))
  {
    var kept := Untouched(original, edits);
    forall name
      ensures name in Created(edits) <==> Wanted(edits, name)
      ensures Wanted(edits, name) ==> name !in kept
    {
      CreatedIsWanted(edits, name);
    }
    forall i | 0 <= i < |edits| && Creates(edits[i])
      ensures edits[i].newName in Created(edits) && Created(edits)[edits[i].newName] == NewIndex(edits[i])
    {
      CreatedValue(kept, edits, i);
    }
  }

  /** The statements run without an error exactly when every index to go is there and goes once, and every new
      name, once all drops are made, is free and comes once. They then leave exactly the edited indexes. In
      particular names may be swapped or passed on, since all drops come before all creates. */
  lemma BatchAppliesEdits(original: Indexes, edits: seq<IndexEdit>)
    ensures var result := ExecuteAll(original, DropStatements(edits) + CreateStatements(edits));
            && (result.Some? <==> DropsFit(original, edits) && CreatesFit(Untouched(original, edits), edits))
            && (result.Some? ==> Edited(original, edits, result.value))
  {
    ExecuteSplit(original, DropStatements(edits), CreateStatements(edits));
    ExecuteDrops(original, edits);
    if DropsFit(original, edits) {
      ExecuteCreates(Untouched(original, edits), edits);
      if CreatesFit(Untouched(original, edits), edits) {
        CreatedIsEdited(original, edits);
      }
    }
  }

  /** What the edits ask for is one set of indexes. */
  lemma EditedIsUnique(original: Indexes, edits: seq<IndexEdit>, a: Indexes, b: Indexes)
    requires Edited(original, edits, a) && Edited(original, edits, b)
    ensures a == b
  {
    forall name | name in a
      ensures a[name] == b[name]
    {
      if Wanted(edits, name) {
        var i :| 0 <= i < |edits| && Creates(edits[i]) && edits[i].newName == name;
        assert a[edits[i].newName] == NewIndex(edits[i]) == b[edits[i].newName];
      } else {
        assert name in Untouched(original, edits);
      }
    }
  }

  /** Whether the edit leaves an index behind. */
  predicate Lives(e: IndexEdit) {
    !e.dropped && (e.dirty || !e.isNew)
  }

  /** The name it is left under. */
  function Target(e: IndexEdit): string {
    if e.dirty then e.newName else e.name
  }

  /** The edit list shows each index of the table once. */
  ghost predicate ShowsTable(original: Indexes, edits: seq<IndexEdit>) {
    && (forall i | 0 <= i < |edits| && !edits[i].isNew :: edits[i].name in original)
    && (forall i, j | 0 <= i < j < |edits| && !edits[i].isNew && !edits[j].isNew :: edits[i].name != edits[j].name)
    && forall name | name in original :: exists i | 0 <= i < |edits| :: !edits[i].isNew && edits[i].name == name
  }

  /** The indexes left behind have different names. */
  ghost predicate UniqueTargets(edits: seq<IndexEdit>) {
    forall i, j | 0 <= i < j < |edits| && Lives(edits[i]) && Lives(edits[j]) :: Target(edits[i]) != Target(edits[j])
  }

  lemma NewNameIsFree(original: Indexes, edits: seq<IndexEdit>, i: nat)
    requires ShowsTable(original, edits) && UniqueTargets(edits) && i < |edits| && Creates(edits[i])
    ensures edits[i].newName !in Untouched(original, edits)
  {
    if edits[i].newName in original {
      var j :| 0 <= j < |edits| && !edits[j].isNew && edits[j].name == edits[i].newName;
      assert Lives(edits[i]);
      assert Drops(edits[j]);
    }
  }

  /** An edit list that shows each index of the table once, and in which the indexes left behind have different
      names, always applies. */
  lemma UniqueNamesApply(original: Indexes, edits: seq<IndexEdit>)
    requires ShowsTable(original, edits) && UniqueTargets(edits)
    ensures ExecuteAll(original, DropStatements(edits) + CreateStatements(edits)).Some?
  {
    forall i | 0 <= i < |edits| && Creates(edits[i])
      ensures edits[i].newName !in Untouched(original, edits)
    {
      NewNameIsFree(original, edits, i);
    }
    assert forall i | 0 <= i < |edits| && Creates(edits[i]) :: Lives(edits[i]) && Target(edits[i]) == edits[i].newName;
    assert CreatesFit(Untouched(original, edits), edits);
    BatchAppliesEdits(original, edits);
  }

  /** Two indexes may take each other's name. */
  lemma SwappedNames(original: Indexes, a: IndexEdit, b: IndexEdit)
    requires a.name != b.name && a.name in original && b.name in original
    requires Creates(a) && Drops(a) && Creates(b) && Drops(b) && a.newName == b.name && b.newName == a.name
    ensures ExecuteAll(original, DropStatements([a, b]) + CreateStatements([a, b]))
         == Some(original[b.name := NewIndex(a)][a.name := NewIndex(b)])
  {
    var edits := [a, b];
    SwapFits(original, a, b);
    BatchAppliesEdits(original, edits);
    SwapIsEdited(original, a, b);
    var result := ExecuteAll(original, DropStatements(edits) + CreateStatements(edits)).value;
    EditedIsUnique(original, edits, result, original[b.name := NewIndex(a)][a.name := NewIndex(b)]);
  }

  lemma SwapIsEdited(original: Indexes, a: IndexEdit, b: IndexEdit)
    requires a.name != b.name && a.name in original && b.name in original
    requires Creates(a) && Drops(a) && Creates(b) && Drops(b) && a.newName == b.name && b.newName == a.name
    ensures Edited(original, [a, b], original[b.name := NewIndex(a)][a.name := NewIndex(b)])
  {
    SwapFits(original, a, b);
  }

  lemma SwapFits(original: Indexes, a: IndexEdit, b: IndexEdit)
    requires a.name != b.name && a.name in original && b.name in original
    requires Creates(a) && Drops(a) && Creates(b) && Drops(b) && a.newName == b.name && b.newName == a.name
    ensures DropsFit(original, [a, b]) && CreatesFit(Untouched(original, [a, b]), [a, b])
    ensures forall name :: Touched([a, b], name) <==> name == a.name || name == b.name
    ensures forall name :: Wanted([a, b], name) <==> name == a.name || name == b.name
  {
    var edits := [a, b];
    assert edits[0] == a && edits[1] == b;
    forall name
      ensures Touched(edits, name) <==> name == a.name || name == b.name
      ensures Wanted(edits, name) <==> name == a.name || name == b.name
    {
      assert Drops(edits[0]) && Drops(edits[1]) && Creates(edits[0]) && Creates(edits[1]);
    }
  }
}
