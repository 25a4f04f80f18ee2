/** What creating, renaming and deleting a directory answers and writes, told from the rows before the call. */
module DirectoryResults {
  import opened Basics
  import opened Texts
  import opened Directory

  // ----- creating -----

  ghost predicate OnlyRowAt(d: Dirs, user: string, path: string, x: int) {
    && x in d.rows && d.rows[x].user == user && d.rows[x].path == path
    && forall y <- d.rows :: d.rows[y].user == user && d.rows[y].path == path ==> y == x
  }

  lemma {:induction false} TakenExactly(d: Dirs, user: string, path: string)
    ensures PathTaken(d, user, path) <==> exists x :: OnlyRowAt(d, user, path, x)
  {
    var rows := set x | x in d.rows && HasPath(d, user, path, x);
    if |rows| == 1 {
      var x :| x in rows;
      assert rows == {x} + (rows - {x});
      assert forall y <- d.rows :: d.rows[y].user == user && d.rows[y].path == path ==> y in rows;
      assert OnlyRowAt(d, user, path, x);
    }
    if x :| OnlyRowAt(d, user, path, x) {
      assert rows == {x};
    }
  }

  /** A path that exactly one row of the user has is taken. Otherwise one row is added under the next identifier,
      with the caller, the path and the parent that was named, if it was named by a number that a row has. */
  lemma {:induction false} MakeDirExactly(d: Dirs, user: string, parentLevel: string, path: string, fails: bool)
    ensures var (t, r) := MakeDir(d, user, parentLevel, path, fails);
            var taken := exists x :: OnlyRowAt(d, user, path, x);
            var top := parentLevel == "" || parentLevel == "0";
            && (taken ==> t == d && r == AlreadyExists)
            && (!taken && top ==> AddsOr(d, Dir(user, path, None), fails, t, r))
            && (!taken && !top && (forall p :: !IsNumber(parentLevel, p)) ==> t == d && r == BadParent)
            && (!taken && !top ==> forall p | IsNumber(parentLevel, p) ::
                  if p in d.rows then AddsOr(d, Dir(user, path, Some(p)), fails, t, r) else t == d && r == NotFound)
  {
    TakenExactly(d, user, path);
    if Atoi(parentLevel).Some? {
      AtoiExactly(parentLevel, Atoi(parentLevel).value);
    }
    forall p | IsNumber(parentLevel, p) ensures Atoi(parentLevel) == Some(p) {
      AtoiExactly(parentLevel, p);
    }
    hide PathTaken, Atoi, OnlyRowAt, IsNumber;
  }

  predicate AddsOr(d: Dirs, row: Dir, fails: bool, t: Dirs, r: Outcome) {
    if fails then t == d && r == Failed else t.rows == d.rows[d.next := row] && t.next == d.next + 1 && r == Ok
  }

  // ----- renaming -----

  /** The directory whose children are compared with the new name. */
  function Above(d: Dirs, root: Option<int>, id: int): int
    requires id in d.rows
  {
    match d.rows[id].parent
    case Some(p) => p
    case None => if root.Some? then root.value else 0
  }

  /** Only the path of the caller's directory changes, to a slash and the name without the blanks around it. With
      at most 1000 directories beside it, that happens exactly when the row is the caller's and not the root,
      the write succeeds, and no other directory of the caller under the same parent has that path. */
  lemma {:induction false} RenameDirExactly(d: Dirs, order: seq<int>, user: string, root: Option<int>, id: int, name: string, fails: bool)
    returns (a: string, kept: string, b: string)
    requires Enumerates(order, d)
    ensures name == a + kept + b && AllBlank(a) && AllBlank(b)
    ensures kept != [] ==> !AllBlank([kept[0]]) && !AllBlank([kept[|kept| - 1]])
    ensures var (t, r) := RenameDir(d, order, user, root, id, name, fails);
            && (id !in d.rows ==> t == d && r == NotFound)
            && (id in d.rows && d.rows[id].user != user ==> t == d && r == Forbidden)
            && (id in d.rows && d.rows[id].user == user && root == Some(id) ==> t == d && r == IsRoot)
            && (r != Ok ==> t == d)
            && (r == Ok ==> id in d.rows && t == d.(rows := d.rows[id := d.rows[id].(path := "/" + kept)]))
            && (id in d.rows && |Children(d, order, user, Above(d, root, id))| <= SIBLING_LIMIT ==>
                 (r == Ok <==>
                    && d.rows[id].user == user && root != Some(id) && !fails
                    && forall x <- d.rows :: x != id && d.rows[x].user == user && d.rows[x].parent == Some(Above(d, root, id))
                                             ==> d.rows[x].path != "/" + kept))
  {
    a, b := TrimExactly(name);
    kept := Trim(name);
    hide Trim, AllBlank;
    if id in d.rows {
      var siblings := Children(d, order, user, Above(d, root, id));
      ChildrenAreChildren(d, order, user, Above(d, root, id));
      hide Children;
      assert forall x :: x in siblings ==> x in d.rows;
      if |siblings| <= SIBLING_LIMIT {
        assert First(siblings, SIBLING_LIMIT) == siblings;
        assert (exists x <- siblings :: HasPath(d, user, "/" + kept, x) && x != id)
          <==> !forall x <- d.rows :: x != id && d.rows[x].user == user && d.rows[x].parent == Some(Above(d, root, id))
                                      ==> d.rows[x].path != "/" + kept by {
          assert forall x <- d.rows :: d.rows[x].user == user && d.rows[x].parent == Some(Above(d, root, id)) ==> x in siblings;
        }
      }
    }
  }

  // ----- deleting -----

  /** `x` is `a` or lies below it along parent links, whoever they belong to. */
  ghost predicate Descends(d: Dirs, a: int, x: int)
    requires Forest(d)
    decreases if x > 0 then x else 0
  {
    x == a || (x in d.rows && d.rows[x].parent.Some? && Descends(d, a, d.rows[x].parent.value))
  }

  lemma {:induction false} ReachedDescends(d: Dirs, order: seq<int>, user: string, a: int, x: int)
    requires Forest(d) && Reached(d, order, user, a, x)
    ensures Descends(d, a, x)
    ensures x != a ==> x in d.rows && d.rows[x].user == user
    decreases if x > 0 then x else 0
  {
    if x != a {
      ChildrenAreChildren(d, order, user, d.rows[x].parent.value);
      ReachedDescends(d, order, user, a, d.rows[x].parent.value);
    }
  }

  lemma {:induction false} DescendsIsReached(d: Dirs, order: seq<int>, user: string, a: int, x: int)
    requires Forest(d) && Enumerates(order, d) && OneUserWithinLimit(d, user) && Descends(d, a, x)
    ensures Reached(d, order, user, a, x)
    decreases if x > 0 then x else 0
  {
    if x != a {
      var q := d.rows[x].parent.value;
      ListingShowsAllExactly(d, order, user, q);
      DescendsIsReached(d, order, user, a, q);
    }
  }

  /** Only the owner can delete a directory, and not the root. Refused, nothing changes. Deleted are only the
      directory and directories of the owner below it, all but those whose own delete fails. */
  lemma {:induction false} DeleteDirExactly(d: Dirs, order: seq<int>, user: string, root: Option<int>, id: int, kept: set<int>)
    requires Forest(d)
    ensures var (t, r) := DeleteDir(d, order, user, root, id, kept);
            && (r == Ok <==> id in d.rows && d.rows[id].user == user && root != Some(id))
            && (r != Ok ==> t == d && r == if id !in d.rows then NotFound else if d.rows[id].user != user then Forbidden else IsRoot)
            && t.next == d.next && t.rows.Keys <= d.rows.Keys && (forall x <- t.rows :: t.rows[x] == d.rows[x])
            && (r == Ok ==> id in kept || id !in t.rows)
            && forall x | x in d.rows && x !in t.rows :: d.rows[x].user == user && x !in kept && Descends(d, id, x)
  {
    forall x | x in Subtree(d, order, user, id) ensures Descends(d, id, x) && (x == id || d.rows[x].user == user) {
      ReachedDescends(d, order, user, id, x);
    }
    hide Descends;
    assert Reached(d, order, user, id, id);
  }

  /** In one user's directories, none with more than 10000 children, deleting one removes exactly it and all its
      descendants, but for those whose own delete fails. */
  lemma {:induction false} DeleteDirTakesDescendants(d: Dirs, order: seq<int>, user: string, root: Option<int>, id: int, kept: set<int>)
    requires Forest(d) && Enumerates(order, d) && OneUserWithinLimit(d, user)
    requires id in d.rows && root != Some(id)
    ensures var t := DeleteDir(d, order, user, root, id, kept).0;
            forall x <- d.rows :: x in t.rows <==> x in kept || !Descends(d, id, x)
  {
    forall x | x in d.rows ensures Reached(d, order, user, id, x) <==> Descends(d, id, x) {
      if Reached(d, order, user, id, x) {
        ReachedDescends(d, order, user, id, x);
      }
      if Descends(d, id, x) {
        DescendsIsReached(d, order, user, id, x);
      }
    }
    hide Descends, Reached;
  }
}
