/** The directory operations as the service runs them, changing its table step by step. */
module DirectoryUseCase {
  import opened Basics
  import opened Directory
  import Spec = Directory

  lemma CollectStep(d: Dirs, order: seq<int>, user: string, p: int, subs: seq<int>, i: nat, done: seq<int>)
    requires Forest(d) && i < |subs|
    requires forall x <- subs :: IsChild(d, user, p, x)
    ensures IsChild(d, user, p, subs[i])
    ensures done + CollectEach(d, order, user, p, subs[i..])
            == done + [subs[i]] + Collect(d, order, user, subs[i]) + CollectEach(d, order, user, p, subs[i + 1..])
  {
    assert subs[i] in subs;
    assert subs[i..][1..] == subs[i + 1..];
  }

  class DirectoryService {
    var rows: map<int, Dir>
    var next: int

    ghost function View(): Dirs
      reads this
    {
      Dirs(rows, next)
    }

    /** Parent links lead to earlier identifiers. */
    ghost predicate Valid()
      reads this
    {
      Forest(View())
    }

    constructor ()
      ensures Valid() && View() == Dirs(map[], 1)
    {
      rows, next := map[], 1;
    }

    method MakeDir(user: string, parentLevel: string, path: string, fails: bool) returns (r: Outcome)
      requires Valid()
      modifies this
      ensures (View(), r) == Spec.MakeDir(old(View()), user, parentLevel, path, fails)
      ensures Valid() && (old(Closed(View())) ==> Closed(View()))
    {
      if PathTaken(Dirs(rows, next), user, path) {
        return AlreadyExists;
      }
      var dir := Dir(user, path, None);
      if parentLevel != "" && parentLevel != "0" {
        var parentID := Atoi(parentLevel);
        if parentID.None? {
          return BadParent;
        }
        if parentID.value !in rows {
          return NotFound;
        }
        dir := dir.(parent := parentID);
      }
      if fails {
        return Failed;
      }
      rows, next := rows[next := dir], next + 1;
      return Ok;
    }

    method RenameDir(order: seq<int>, user: string, root: Option<int>, id: int, name: string, fails: bool) returns (r: Outcome)
      requires Valid()
      modifies this
      ensures (View(), r) == Spec.RenameDir(old(View()), order, user, root, id, name, fails)
      ensures Valid() && (old(Closed(View())) ==> Closed(View()))
    {
      if id !in rows {
        return NotFound;
      }
      var dir := rows[id];
      if dir.user != user {
        return Forbidden;
      }
      if root == Some(id) {
        return IsRoot;
      }
      var newPath := "/" + Trim(name);
      var parent := if dir.parent.Some? then dir.parent.value else if root.Some? then root.value else 0;
      var siblings := First(Children(Dirs(rows, next), order, user, parent), SIBLING_LIMIT);
      for i := 0 to |siblings|
        invariant View() == old(View())
        invariant forall x <- siblings[..i] :: !(HasPath(View(), user, newPath, x) && x != id)
      {
        ChildrenAreChildren(View(), order, user, parent);
        assert siblings[i] in Children(View(), order, user, parent);
        assert IsChild(View(), user, parent, siblings[i]);
        assert HasPath(View(), user, newPath, siblings[i]) <==> rows[siblings[i]].path == newPath;
        if rows[siblings[i]].path == newPath && siblings[i] != id {
          return NameConflict;
        }
      }
      if fails {
        return Failed;
      }
      rows := rows[id := dir.(path := newPath)];
      return Ok;
    }

    method CollectDirs(order: seq<int>, user: string, parent: int) returns (ids: seq<int>)
      requires Valid()
      ensures ids == Collect(View(), order, user, parent)
      decreases Height(View(), parent)
    {
      ghost var d := View();
      ChildrenAreChildren(d, order, user, parent);
      var subs := Listed(Dirs(rows, next), order, user, parent);
      ids := [];
      for i := 0 to |subs|
        invariant forall x <- subs :: IsChild(d, user, parent, x)
        invariant ids + CollectEach(d, order, user, parent, subs[i..]) == Collect(d, order, user, parent)
      {
        assert IsChild(d, user, parent, subs[i]);
        var below := CollectDirs(order, user, subs[i]);
        CollectStep(d, order, user, parent, subs, i, ids);
        ids := ids + [subs[i]];
        ids := ids + below;
      }
    }

    /** `kept` are the rows whose delete fails. */
    method DeleteDir(order: seq<int>, user: string, root: Option<int>, id: int, kept: set<int>) returns (r: Outcome)
      requires Valid() && Enumerates(order, View())
      modifies this
      ensures (View(), r) == Spec.DeleteDir(old(View()), order, user, root, id, kept)
      ensures Valid()
      ensures r.Ok? && old(Closed(View()))
              ==> (Closed(View()) <==> forall p <- old(Subtree(View(), order, user, id)) - kept ::
                                         old(NoChildSurvives(View(), order, user, kept, p)))
    {
      if id !in rows {
        return NotFound;
      }
      if rows[id].user != user {
        return Forbidden;
      }
      if root == Some(id) {
        return IsRoot;
      }
      var below := CollectDirs(order, user, id);
      var all := [id] + below;
      CollectIsSubtree(View(), order, user, id);
      for i := 0 to |all|
        invariant next == old(next)
        invariant rows == old(rows) - ((set x | x in all[..i]) - kept)
      {
        if all[i] !in kept {
          rows := rows - {all[i]};
        }
      }
      assert all[..|all|] == all;
      if Closed(old(View())) {
        DeleteKeepsClosedExactly(old(View()), order, user, root, id, kept);
      }
      ghost var gone := Subtree(old(View()), order, user, id);
      assert (set x | x in all) == gone;
      return Ok;
    }
  }
}
