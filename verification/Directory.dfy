/** The tree of virtual directories: creating, renaming and recursively deleting them. */
module Directory {
  import opened Basics

  /** A row of the directory table; `parent` is None where ParentLevel is the empty text. */
  datatype Dir = Dir(user: string, path: string, parent: Option<int>)

  /** The table and its auto-increment counter. */
  datatype Dirs = Dirs(rows: map<int, Dir>, next: int)

  datatype Outcome = Ok | NotFound | Forbidden | IsRoot | AlreadyExists | NameConflict | BadParent | Failed

  const LIST_LIMIT: nat := 10000
  const SIBLING_LIMIT: nat := 1000

  /** Parent links lead to earlier identifiers, so they form a forest. */
  ghost predicate Forest(d: Dirs) {
    && d.next > 0
    && forall x <- d.rows :: 0 < x < d.next && (d.rows[x].parent.Some? ==> d.rows[x].parent.value < x)
  }

  type Tree = d: Dirs | Forest(d) witness Dirs(map[], 1)

  /** Every directory's parent exists. */
  ghost predicate Closed(d: Dirs) {
    forall x <- d.rows :: d.rows[x].parent.Some? ==> d.rows[x].parent.value in d.rows
  }

  // ----- what the queries answer -----

  /** `order` is the fixed order in which the database returns rows. */
  ghost predicate Enumerates(order: seq<int>, d: Dirs) {
    NoDuplicates(order) && forall x :: x in order <==> x in d.rows
  }

  predicate IsChild(d: Dirs, user: string, p: int, x: int) {
    x in d.rows && d.rows[x].user == user && d.rows[x].parent == Some(p)
  }

  function Children(d: Dirs, order: seq<int>, user: string, p: int): seq<int> {
    if order == [] then []
    else (if IsChild(d, user, p, order[0]) then [order[0]] else []) + Children(d, order[1..], user, p)
  }

  /** ListSubFolders from offset 0 with the limit that DeleteDir uses. */
  function Listed(d: Dirs, order: seq<int>, user: string, p: int): seq<int> {
    First(Children(d, order, user, p), LIST_LIMIT)
  }

  predicate HasPath(d: Dirs, user: string, path: string, x: int) {
    x in d.rows && d.rows[x].user == user && d.rows[x].path == path
  }

  /** GetByPath succeeds only when exactly one row matches. */
  predicate PathTaken(d: Dirs, user: string, path: string) {
    |set x | x in d.rows && HasPath(d, user, path, x)| == 1
  }

  lemma ChildrenAreChildren(d: Dirs, order: seq<int>, user: string, p: int)
    ensures forall x :: x in Children(d, order, user, p) <==> x in order && IsChild(d, user, p, x)
  {
  }

  lemma {:induction false} ChildrenDistinct(d: Dirs, order: seq<int>, user: string, p: int)
    requires NoDuplicates(order)
    ensures NoDuplicates(Children(d, order, user, p))
  {
    if order != [] {
      ChildrenDistinct(d, order[1..], user, p);
      ChildrenAreChildren(d, order[1..], user, p);
    }
  }

  // ----- the operations -----

  function MakeDir(d: Dirs, user: string, parentLevel: string, path: string, fails: bool): (Dirs, Outcome) {
    if PathTaken(d, user, path) then (d, AlreadyExists)
    else if parentLevel == "" || parentLevel == "0" then Created(d, Dir(user, path, None), fails)
    else
      match Atoi(parentLevel)
      case None => (d, BadParent)
      case Some(p) => if p !in d.rows then (d, NotFound) else Created(d, Dir(user, path, Some(p)), fails)
  }

  function Created(d: Dirs, dir: Dir, fails: bool): (Dirs, Outcome) {
    if fails then (d, Failed) else (Dirs(d.rows[d.next := dir], d.next + 1), Ok)
  }

  function RenameDir(d: Dirs, order: seq<int>, user: string, root: Option<int>, id: int, name: string, fails: bool): (Dirs, Outcome) {
    if id !in d.rows then (d, NotFound)
    else if d.rows[id].user != user then (d, Forbidden)
    else if root == Some(id) then (d, IsRoot)
    else
      var newPath := "/" + Trim(name);
      var parent := if d.rows[id].parent.Some? then d.rows[id].parent.value
                    else if root.Some? then root.value else 0;
      var siblings := First(Children(d, order, user, parent), SIBLING_LIMIT);
      if exists x <- siblings :: HasPath(d, user, newPath, x) && x != id then (d, NameConflict)
      else if fails then (d, Failed)
      else (d.(rows := d.rows[id := d.rows[id].(path := newPath)]), Ok)
  }

  /** `x` is `a` or lies below it along links that the listings show. */
  ghost predicate Reached(d: Dirs, order: seq<int>, user: string, a: int, x: int)
    requires Forest(d)
    decreases if x > 0 then x else 0
  {
    || x == a
    || (&& x in d.rows && d.rows[x].parent.Some?
        && x in Listed(d, order, user, d.rows[x].parent.value)
        && Reached(d, order, user, a, d.rows[x].parent.value))
  }

  ghost function Subtree(d: Dirs, order: seq<int>, user: string, a: int): set<int>
    requires Forest(d)
  {
    set x | x in d.rows && Reached(d, order, user, a, x)
  }

  /** The deletes of the rows in `kept` fail, which the use case ignores. */
  ghost function DeleteDir(d: Dirs, order: seq<int>, user: string, root: Option<int>, id: int, kept: set<int>): (Dirs, Outcome)
    requires Forest(d)
  {
    if id !in d.rows then (d, NotFound)
    else if d.rows[id].user != user then (d, Forbidden)
    else if root == Some(id) then (d, IsRoot)
    else (d.(rows := d.rows - (Subtree(d, order, user, id) - kept)), Ok)
  }

  // ----- the recursive walk -----

  function Height(d: Dirs, p: int): nat {
    if p < d.next then d.next - p else 0
  }

  /** The walk of collectDirs: each listed child, then everything below it. */
  ghost function Collect(d: Dirs, order: seq<int>, user: string, p: int): seq<int>
    requires Forest(d)
    decreases Height(d, p), 1, 0
  {
    ChildrenAreChildren(d, order, user, p);
    CollectEach(d, order, user, p, Listed(d, order, user, p))
  }

  ghost function CollectEach(d: Dirs, order: seq<int>, user: string, p: int, subs: seq<int>): seq<int>
    requires Forest(d)
    requires forall x <- subs :: IsChild(d, user, p, x)
    decreases Height(d, p), 0, |subs|
  {
    if subs == [] then []
    else
      assert IsChild(d, user, p, subs[0]);
      [subs[0]] + Collect(d, order, user, subs[0]) + CollectEach(d, order, user, p, subs[1..])
  }

  lemma {:induction false} ReachedIsLater(d: Dirs, order: seq<int>, user: string, a: int, x: int)
    requires Forest(d) && Reached(d, order, user, a, x)
    ensures a <= x
    decreases if x > 0 then x else 0
  {
    if x != a {
      ReachedIsLater(d, order, user, a, d.rows[x].parent.value);
    }
  }

  lemma {:induction false} ReachedFromParent(d: Dirs, order: seq<int>, user: string, p: int, c: int, x: int)
    requires Forest(d) && IsChild(d, user, p, c) && c in Listed(d, order, user, p)
    requires Reached(d, order, user, c, x)
    ensures Reached(d, order, user, p, x)
    decreases if x > 0 then x else 0
  {
    if x != c {
      ReachedFromParent(d, order, user, p, c, d.rows[x].parent.value);
    }
  }

  /** Nothing lies below two siblings. */
  lemma {:induction false} SiblingsShareNothing(d: Dirs, order: seq<int>, user: string, p: int, c: int, c': int, x: int)
    requires Forest(d) && IsChild(d, user, p, c) && IsChild(d, user, p, c') && c != c'
    requires Reached(d, order, user, c, x)
    ensures !Reached(d, order, user, c', x)
    decreases if x > 0 then x else 0
  {
    if Reached(d, order, user, c', x) {
      if x == c {
        ReachedIsLater(d, order, user, c', p);
      } else if x == c' {
        ReachedIsLater(d, order, user, c, p);
      } else {
        SiblingsShareNothing(d, order, user, p, c, c', d.rows[x].parent.value);
      }
    }
  }

  lemma {:induction false} CollectedIsReached(d: Dirs, order: seq<int>, user: string, p: int, x: int)
    requires Forest(d) && x in Collect(d, order, user, p)
    ensures x != p && x in d.rows && Reached(d, order, user, p, x)
    decreases Height(d, p), 1, 0
  {
    ChildrenAreChildren(d, order, user, p);
    var c := CollectedBelowOne(d, order, user, p, Listed(d, order, user, p), x);
    assert Reached(d, order, user, p, p);
    ReachedFromParent(d, order, user, p, c, x);
    ReachedIsLater(d, order, user, c, x);
  }

  lemma {:induction false} CollectedBelowOne(d: Dirs, order: seq<int>, user: string, p: int, subs: seq<int>, x: int) returns (c: int)
    requires Forest(d)
    requires forall x <- subs :: IsChild(d, user, p, x)
    requires x in CollectEach(d, order, user, p, subs)
    ensures c in subs && x in d.rows && Reached(d, order, user, c, x)
    decreases Height(d, p), 0, |subs|
  {
    if x == subs[0] {
      c := subs[0];
    } else if x in Collect(d, order, user, subs[0]) {
      assert IsChild(d, user, p, subs[0]);
      CollectedIsReached(d, order, user, subs[0], x);
      c := subs[0];
    } else {
      c := CollectedBelowOne(d, order, user, p, subs[1..], x);
    }
  }

  lemma {:induction false} EachHoldsParts(d: Dirs, order: seq<int>, user: string, p: int, subs: seq<int>, c: int)
    requires Forest(d)
    requires forall x <- subs :: IsChild(d, user, p, x)
    requires c in subs
    ensures c in CollectEach(d, order, user, p, subs)
    ensures forall x <- Collect(d, order, user, c) :: x in CollectEach(d, order, user, p, subs)
    decreases |subs|
  {
    if c != subs[0] {
      EachHoldsParts(d, order, user, p, subs[1..], c);
    }
  }

  lemma {:induction false} ReachedIsCollected(d: Dirs, order: seq<int>, user: string, p: int, x: int)
    requires Forest(d) && x != p && Reached(d, order, user, p, x)
    ensures x in Collect(d, order, user, p)
    decreases Height(d, p)
  {
    ChildrenAreChildren(d, order, user, p);
    var c := TopOfChain(d, order, user, p, x);
    EachHoldsParts(d, order, user, p, Listed(d, order, user, p), c);
    if x != c {
      ReachedIsCollected(d, order, user, c, x);
    }
  }

  /** The child of `p` that the chain to `x` goes through. */
  lemma {:induction false} TopOfChain(d: Dirs, order: seq<int>, user: string, p: int, x: int) returns (c: int)
    requires Forest(d) && x != p && Reached(d, order, user, p, x)
    ensures c in Listed(d, order, user, p) && IsChild(d, user, p, c) && Reached(d, order, user, c, x)
    decreases if x > 0 then x else 0
  {
    var q := d.rows[x].parent.value;
    ChildrenAreChildren(d, order, user, q);
    if q == p {
      c := x;
    } else {
      c := TopOfChain(d, order, user, p, q);
    }
  }

  lemma {:induction false} CollectDistinct(d: Dirs, order: seq<int>, user: string, p: int)
    requires Forest(d) && NoDuplicates(order)
    ensures NoDuplicates(Collect(d, order, user, p))
    decreases Height(d, p), 1, 0
  {
    ChildrenAreChildren(d, order, user, p);
    ChildrenDistinct(d, order, user, p);
    CollectEachDistinct(d, order, user, p, Listed(d, order, user, p));
  }

  lemma {:induction false} CollectEachDistinct(d: Dirs, order: seq<int>, user: string, p: int, subs: seq<int>)
    requires Forest(d) && NoDuplicates(order) && NoDuplicates(subs)
    requires forall x <- subs :: IsChild(d, user, p, x)
    ensures NoDuplicates(CollectEach(d, order, user, p, subs))
    decreases Height(d, p), 0, |subs|
  {
    if subs != [] {
      var c := subs[0];
      assert IsChild(d, user, p, c);
      var head, tail := [c] + Collect(d, order, user, c), CollectEach(d, order, user, p, subs[1..]);
      CollectDistinct(d, order, user, c);
      CollectEachDistinct(d, order, user, p, subs[1..]);
      forall x | x in Collect(d, order, user, c) ensures x != c && Reached(d, order, user, c, x) {
        CollectedIsReached(d, order, user, c, x);
      }
      forall i, j | 0 <= i < |head| && 0 <= j < |tail| ensures head[i] != tail[j] {
        if head[i] == tail[j] {
          var c' := CollectedBelowOne(d, order, user, p, subs[1..], tail[j]);
          assert head[i] == c || head[i] in Collect(d, order, user, c);
          SiblingsShareNothing(d, order, user, p, c, c', tail[j]);
        }
      }
      forall i | 0 <= i < |Collect(d, order, user, c)| ensures Collect(d, order, user, c)[i] != c {
        assert Collect(d, order, user, c)[i] in Collect(d, order, user, c);
      }
      DistinctParts([c], Collect(d, order, user, c));
      DistinctParts(head, tail);
    }
  }

  /** The walk visits the directory's descendants, each once, and nothing else. */
  lemma CollectIsSubtree(d: Dirs, order: seq<int>, user: string, p: int)
    requires Forest(d) && Enumerates(order, d) && p in d.rows
    ensures NoDuplicates([p] + Collect(d, order, user, p))
    ensures forall x :: x in [p] + Collect(d, order, user, p) <==> x in Subtree(d, order, user, p)
  {
    var below := Collect(d, order, user, p);
    CollectDistinct(d, order, user, p);
    forall x ensures x in below <==> x != p && x in Subtree(d, order, user, p) {
      if x in below {
        CollectedIsReached(d, order, user, p, x);
      }
      if x != p && x in Subtree(d, order, user, p) {
        ReachedIsCollected(d, order, user, p, x);
      }
    }
    forall i | 0 <= i < |below| ensures below[i] != p {
      assert below[i] in below;
    }
    DistinctParts([p], below);
  }

  // ----- what deletion keeps -----

  /** Nothing under `p` escapes the listing: no child of another user, no more than the limit. */
  ghost predicate ListingShowsAll(d: Dirs, order: seq<int>, user: string, p: int) {
    && (forall x <- d.rows :: d.rows[x].parent == Some(p) ==> d.rows[x].user == user)
    && |Children(d, order, user, p)| <= LIST_LIMIT
  }

  lemma ListingShowsAllExactly(d: Dirs, order: seq<int>, user: string, p: int)
    requires Enumerates(order, d)
    ensures ListingShowsAll(d, order, user, p)
            <==> forall x <- d.rows :: d.rows[x].parent == Some(p) ==> x in Listed(d, order, user, p)
  {
    ChildrenAreChildren(d, order, user, p);
    ChildrenDistinct(d, order, user, p);
    var all := Children(d, order, user, p);
    if |all| > LIST_LIMIT {
      var extra := all[LIST_LIMIT];
      assert extra in all && IsChild(d, user, p, extra);
      assert extra !in Listed(d, order, user, p);
    }
  }

  /** No child of `p` outlives it: the listing hides none, and the delete of none fails. */
  ghost predicate NoChildSurvives(d: Dirs, order: seq<int>, user: string, kept: set<int>, p: int) {
    && ListingShowsAll(d, order, user, p)
    && forall x <- d.rows :: d.rows[x].parent == Some(p) ==> x !in kept
  }

  /** After deleting a directory every survivor still has its parent, exactly when under each row that was
      deleted the listing hid no child and no child's own delete failed. */
  lemma DeleteKeepsClosedExactly(d: Dirs, order: seq<int>, user: string, root: Option<int>, id: int, kept: set<int>)
    requires Forest(d) && Closed(d) && Enumerates(order, d)
    requires DeleteDir(d, order, user, root, id, kept).1.Ok?
    ensures Closed(DeleteDir(d, order, user, root, id, kept).0)
            <==> forall p <- Subtree(d, order, user, id) - kept :: NoChildSurvives(d, order, user, kept, p)
  {
    var gone := Subtree(d, order, user, id) - kept;
    var after := DeleteDir(d, order, user, root, id, kept).0;
    forall p | p in gone
      ensures NoChildSurvives(d, order, user, kept, p) <==> forall x <- after.rows :: d.rows[x].parent != Some(p)
    {
      ListingShowsAllExactly(d, order, user, p);
      ReachedIsLater(d, order, user, id, p);
      forall x | x in d.rows && d.rows[x].parent == Some(p)
        ensures x in Subtree(d, order, user, id) <==> x in Listed(d, order, user, p)
      {
      }
    }
    if !Closed(after) {
      var x :| x in after.rows && after.rows[x].parent.Some? && after.rows[x].parent.value !in after.rows;
      assert !NoChildSurvives(d, order, user, kept, d.rows[x].parent.value);
    }
    if p :| p in gone && !NoChildSurvives(d, order, user, kept, p) {
      var x :| x in after.rows && d.rows[x].parent == Some(p);
      assert p !in after.rows;
    }
  }

  // ----- runs -----

  datatype DirOp =
    | Make(user: string, parentLevel: string, path: string, fails: bool)
    | Rename(order: seq<int>, user: string, root: Option<int>, id: int, name: string, fails: bool)
    | Remove(order: seq<int>, user: string, root: Option<int>, id: int, kept: set<int>)

  ghost function Apply(d: Tree, op: DirOp): Tree {
    match op
    case Make(u, parentLevel, path, fails) => MakeDir(d, u, parentLevel, path, fails).0
    case Rename(order, u, root, id, name, fails) => RenameDir(d, order, u, root, id, name, fails).0
    case Remove(order, u, root, id, kept) => DeleteDir(d, order, u, root, id, kept).0
  }

  /** Parent links stay a forest in every run. */
  ghost function Run(d: Tree, ops: seq<DirOp>): (r: Dirs)
    ensures Forest(r)
    decreases |ops|
  {
    if ops == [] then d else Run(Apply(d, ops[0]), ops[1..])
  }

  /** Every directory belongs to `u` and no directory has more children than one listing returns. */
  ghost predicate OneUserWithinLimit(d: Dirs, u: string) {
    && (forall x <- d.rows :: d.rows[x].user == u)
    && (forall p, order | Enumerates(order, d) :: |Children(d, order, u, p)| <= LIST_LIMIT)
  }

  ghost function Below(d: Dirs, order: seq<int>, user: string, a: int): set<int>
    requires Forest(d)
  {
    Subtree(d, order, user, a) - {a}
  }

  /** Each step is by `u`, gets the database's row order, and starts from a tree within the limit; no
      delete of a row whose parent goes fails. */
  ghost predicate RunOfOneUser(d: Tree, u: string, ops: seq<DirOp>)
    decreases |ops|
  {
    ops == [] ||
    (&& ops[0].user == u
     && (ops[0].Remove? ==> Enumerates(ops[0].order, d) && ops[0].kept !! Below(d, ops[0].order, u, ops[0].id))
     && OneUserWithinLimit(d, u)
     && RunOfOneUser(Apply(d, ops[0]), u, ops[1..]))
  }

  lemma OneUserDeleteKeepsClosed(d: Dirs, order: seq<int>, u: string, root: Option<int>, id: int, kept: set<int>)
    requires Forest(d) && Closed(d) && Enumerates(order, d) && OneUserWithinLimit(d, u)
    requires DeleteDir(d, order, u, root, id, kept).1.Ok? && kept !! Below(d, order, u, id)
    ensures Closed(DeleteDir(d, order, u, root, id, kept).0)
  {
    forall p | p in Subtree(d, order, u, id) - kept ensures NoChildSurvives(d, order, u, kept, p) {
      ListingShowsAllExactly(d, order, u, p);
      ReachedIsLater(d, order, u, id, p);
      forall x | x in d.rows && d.rows[x].parent == Some(p) ensures x in Below(d, order, u, id) {
      }
    }
    DeleteKeepsClosedExactly(d, order, u, root, id, kept);
  }

  /** In every such run all surviving directories keep their parents. */
  lemma {:induction false} OneUserTreeStaysClosed(d: Tree, u: string, ops: seq<DirOp>)
    requires Closed(d) && RunOfOneUser(d, u, ops)
    ensures Closed(Run(d, ops))
    decreases |ops|
  {
    if ops != [] {
      if ops[0].Remove? && DeleteDir(d, ops[0].order, u, ops[0].root, ops[0].id, ops[0].kept).1.Ok? {
        OneUserDeleteKeepsClosed(d, ops[0].order, u, ops[0].root, ops[0].id, ops[0].kept);
      }
      assert Closed(Apply(d, ops[0]));
      OneUserTreeStaysClosed(Apply(d, ops[0]), u, ops[1..]);
    }
  }

  /** A directory that another user made under the deleted one outlives its parent. */
  lemma ForeignChildWitness()
    ensures var d := Dirs(map[1 := Dir("a", "/", None), 2 := Dir("a", "/x", Some(1)), 3 := Dir("b", "/y", Some(2))], 4);
            && Forest(d) && Closed(d) && Enumerates([1, 2, 3], d)
            && DeleteDir(d, [1, 2, 3], "a", Some(1), 2, {}).1.Ok?
            && 3 in DeleteDir(d, [1, 2, 3], "a", Some(1), 2, {}).0.rows
            && !Closed(DeleteDir(d, [1, 2, 3], "a", Some(1), 2, {}).0)
  {
    var d := Dirs(map[1 := Dir("a", "/", None), 2 := Dir("a", "/x", Some(1)), 3 := Dir("b", "/y", Some(2))], 4);
    ChildrenAreChildren(d, [1, 2, 3], "a", 2);
    assert 3 !in Listed(d, [1, 2, 3], "a", 2);
    assert !Reached(d, [1, 2, 3], "a", 2, 3) && Reached(d, [1, 2, 3], "a", 2, 2);
    hide Reached, Listed, Children;
    var after := DeleteDir(d, [1, 2, 3], "a", Some(1), 2, {}).0;
    assert 3 in after.rows && 2 !in after.rows;
  }
}
