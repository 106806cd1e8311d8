/** The breed decision tree of breeds_decision_tree.py: each breed's trait answers, read
    as a path from the root, lead to a node whose children's roots are the breeds with
    exactly those answers.  Roots are strings, as the rows of the trait file are. */
module DecisionTree {
  import opened Errors

  datatype Tree = Tree(root: string, subtrees: seq<Tree>)

  /** The roots of a tree's children, in order. */
  function Roots(t: Tree): (r: seq<string>)
    ensures |r| == |t.subtrees|
    ensures forall i :: 0 <= i < |t.subtrees| ==> r[i] == t.subtrees[i].root
  {
    seq(|t.subtrees|, i requires 0 <= i < |t.subtrees| => t.subtrees[i].root)
  }

  /** No two children of any node share a root. */
  ghost predicate UniqueRoots(t: Tree)
    decreases t
  {
    && (forall i, j :: 0 <= i < j < |t.subtrees| ==> t.subtrees[i].root != t.subtrees[j].root)
    && (forall i :: 0 <= i < |t.subtrees| ==> UniqueRoots(t.subtrees[i]))
  }

  /** The scan of `contain_num` from child `i` on. */
  function FindFrom(t: Tree, item: string, i: nat): (r: Option<nat>)
    requires i <= |t.subtrees|
    decreases |t.subtrees| - i
  {
    if i == |t.subtrees| then None
    else if t.subtrees[i].root == item then Some(i)
    else FindFrom(t, item, i + 1)
  }

  lemma {:induction false} FindFromFirst(t: Tree, item: string, i: nat)
    requires i <= |t.subtrees|
    ensures FindFrom(t, item, i).None? <==> forall j :: i <= j < |t.subtrees| ==> t.subtrees[j].root != item
    ensures FindFrom(t, item, i).Some? ==>
              var k := FindFrom(t, item, i).value;
              && i <= k < |t.subtrees| && t.subtrees[k].root == item
              && forall j :: i <= j < k ==> t.subtrees[j].root != item
    decreases |t.subtrees| - i
  {
    if i < |t.subtrees| && t.subtrees[i].root != item {
      FindFromFirst(t, item, i + 1);
    }
  }

  /** `contain_num`: the first child whose root is `item`, or nothing when no child has
      that root. */
  function ContainNum(t: Tree, item: string): (r: Option<nat>)
    ensures r.None? <==> item !in Roots(t)
    ensures r.Some? ==> r.value < |t.subtrees| && t.subtrees[r.value].root == item
    ensures r.Some? ==> forall j :: 0 <= j < r.value ==> t.subtrees[j].root != item
  {
    FindFromFirst(t, item, 0);
    FindFrom(t, item, 0)
  }

  /** `insert_sequence`: follows the path of `items` through the first children with the
      matching roots, creating a child at the end of a node's list wherever the path leaves
      the tree.  The root never changes, existing children keep their places and roots,
      at most one child is added at the top, only for a first item no child had, and the
      first item is then a child root. */
  function InsertSequence(t: Tree, items: seq<string>): (r: Tree)
    ensures r.root == t.root
    ensures |t.subtrees| <= |r.subtrees| <= |t.subtrees| + 1
    ensures forall i :: 0 <= i < |t.subtrees| ==> r.subtrees[i].root == t.subtrees[i].root
    ensures |r.subtrees| > |t.subtrees| ==>
              |items| > 0 && items[0] !in Roots(t) && r.subtrees[|t.subtrees|].root == items[0]
    ensures |items| > 0 ==> items[0] in Roots(r)
    ensures |items| == 0 ==> r == t
    decreases |items|
  {
    if |items| == 0 then t
    else
      match ContainNum(t, items[0])
      case Some(i) =>
        var r := Tree(t.root, t.subtrees[i := InsertSequence(t.subtrees[i], items[1..])]);
        assert Roots(r)[i] == items[0];
        r
      case None =>
        var r := Tree(t.root, t.subtrees + [InsertSequence(Tree(items[0], []), items[1..])]);
        assert Roots(r)[|t.subtrees|] == items[0];
        r
  }

  /** The child that receives the rest of a sequence starting with `item`: the first child
      with that root, or the new one appended after the existing children. */
  function Slot(t: Tree, item: string): (r: nat)
    ensures r <= |t.subtrees|
  {
    match ContainNum(t, item)
    case Some(i) => i
    case None => |t.subtrees|
  }

  /** The shape of one insertion: the slot's child has the rest inserted (into a fresh
      leaf for a new slot), every other child is untouched, and the first item now selects
      the slot. */
  lemma InsertShape(t: Tree, items: seq<string>)
    requires |items| > 0
    ensures var r, s := InsertSequence(t, items), Slot(t, items[0]);
            && s < |r.subtrees|
            && r.subtrees[s] == InsertSequence(if s < |t.subtrees| then t.subtrees[s] else Tree(items[0], []), items[1..])
            && (forall j :: 0 <= j < |t.subtrees| && j != s ==> r.subtrees[j] == t.subtrees[j])
            && ContainNum(r, items[0]) == Some(s)
  {
    var r, s := InsertSequence(t, items), Slot(t, items[0]);
    assert ContainNum(r, items[0]).value == s by {
      if s == |t.subtrees| {
        assert items[0] !in Roots(t);
      }
    }
  }

  /** A choice that selected a child before an insertion selects the same child after it. */
  lemma ContainNumKept(t: Tree, items: seq<string>, c: string)
    requires ContainNum(t, c).Some?
    ensures ContainNum(InsertSequence(t, items), c) == ContainNum(t, c)
  {
  }

  /** Insertion keeps sibling roots distinct at every node. */
  lemma {:induction false} InsertKeepsUniqueRoots(t: Tree, items: seq<string>)
    requires UniqueRoots(t)
    ensures UniqueRoots(InsertSequence(t, items))
    decreases |items|
  {
    if |items| > 0 {
      var r, s := InsertSequence(t, items), Slot(t, items[0]);
      InsertShape(t, items);
      if s < |t.subtrees| {
        InsertKeepsUniqueRoots(t.subtrees[s], items[1..]);
      } else {
        assert UniqueRoots(Tree(items[0], []));
        InsertKeepsUniqueRoots(Tree(items[0], []), items[1..]);
      }
      assert forall j :: 0 <= j < |r.subtrees| ==> UniqueRoots(r.subtrees[j]);
    }
  }

  /** `decision_tree_method`: descends through the first child matching each choice in
      turn and returns the roots of the children of the node reached; a choice that no
      child matches gives the empty list. */
  function DecisionTreeMethod(t: Tree, choices: seq<string>): (r: seq<string>)
    ensures |choices| == 0 ==> r == Roots(t)
    ensures |choices| > 0 && choices[0] !in Roots(t) ==> r == []
    decreases |choices|
  {
    if |choices| == 0 then Roots(t)
    else
      match ContainNum(t, choices[0])
      case None => []
      case Some(i) => DecisionTreeMethod(t.subtrees[i], choices[1..])
  }

  /** After inserting `path + [breed]`, asking with the answers `path` finds `breed`. */
  lemma {:induction false} LookupAfterInsert(t: Tree, path: seq<string>, breed: string)
    ensures breed in DecisionTreeMethod(InsertSequence(t, path + [breed]), path)
    decreases |path|
  {
    var items := path + [breed];
    if |path| > 0 {
      assert items[0] == path[0] && items[1..] == path[1..] + [breed];
      var s := Slot(t, path[0]);
      InsertShape(t, items);
      LookupAfterInsert(if s < |t.subtrees| then t.subtrees[s] else Tree(path[0], []), path[1..], breed);
    }
  }

  /** Inserting never hides an answer the tree already gave. */
  lemma {:induction false} LookupPreservedByInsert(t: Tree, items: seq<string>, path: seq<string>, x: string)
    requires x in DecisionTreeMethod(t, path)
    ensures x in DecisionTreeMethod(InsertSequence(t, items), path)
    decreases |path|
  {
    var r := InsertSequence(t, items);
    if |path| > 0 && |items| > 0 {
      var i := ContainNum(t, path[0]).value;
      ContainNumKept(t, items, path[0]);
      InsertShape(t, items);
      if Slot(t, items[0]) == i {
        LookupPreservedByInsert(t.subtrees[i], items[1..], path[1..], x);
      }
    } else if |path| == 0 && |items| > 0 {
      var k :| 0 <= k < |Roots(t)| && Roots(t)[k] == x;
      assert Roots(r)[k] == x;
    }
  }

  /** A node with no children gives no answers, whatever the choices. */
  lemma LeafAnswersNothing(root: string, path: seq<string>)
    ensures DecisionTreeMethod(Tree(root, []), path) == []
  {
    if |path| > 0 {
      assert path[0] !in Roots(Tree(root, []));
    }
  }

  /** Prefixes survive putting the same element in front. */
  lemma PrefixCons(h: string, a: seq<string>, b: seq<string>)
    requires a <= b
    ensures [h] + a <= [h] + b
  {
    assert ([h] + b)[..|[h] + a|] == [h] + b[..|a|];
  }

  /** `path + [x]` starts `items` when its tail starts the tail of `items`. */
  lemma PrefixStep(items: seq<string>, path: seq<string>, x: string)
    requires |items| > 0 && |path| > 0 && path[0] == items[0]
    requires path[1..] + [x] <= items[1..]
    ensures path + [x] <= items
  {
    PrefixCons(items[0], path[1..] + [x], items[1..]);
    assert path + [x] == [items[0]] + (path[1..] + [x]);
    assert items == [items[0]] + items[1..];
  }

  /** Every answer of the tree after an insertion was an answer before it or is spelled by
      the inserted sequence itself. */
  lemma {:induction false} InsertSound(t: Tree, items: seq<string>, path: seq<string>, x: string)
    requires x in DecisionTreeMethod(InsertSequence(t, items), path)
    ensures x in DecisionTreeMethod(t, path) || path + [x] <= items
    decreases |path|, 1
  {
    if |items| == 0 {
    } else if |path| == 0 {
      InsertSoundTop(t, items, x);
    } else {
      var r, s := InsertSequence(t, items), Slot(t, items[0]);
      if ContainNum(r, path[0]) == Some(s) {
        InsertSoundSlot(t, items, path, x);
      } else {
        InsertSoundOther(t, items, path, x);
      }
    }
  }

  /** InsertSound when the first choice selects a child the insertion did not touch. */
  lemma InsertSoundOther(t: Tree, items: seq<string>, path: seq<string>, x: string)
    requires |items| > 0 && |path| > 0
    requires ContainNum(InsertSequence(t, items), path[0]).Some?
    requires ContainNum(InsertSequence(t, items), path[0]) != Some(Slot(t, items[0]))
    requires x in DecisionTreeMethod(InsertSequence(t, items), path)
    ensures x in DecisionTreeMethod(t, path)
  {
    var r := InsertSequence(t, items);
    var i := ContainNum(r, path[0]).value;
    InsertShape(t, items);
    assert i < |t.subtrees|;
    assert r.subtrees[i] == t.subtrees[i];
    assert ContainNum(t, path[0]) == Some(i);
  }

  /** InsertSound for the empty list of choices: a new top-level root is the first item. */
  lemma InsertSoundTop(t: Tree, items: seq<string>, x: string)
    requires |items| > 0
    requires x in Roots(InsertSequence(t, items))
    ensures x in Roots(t) || [x] <= items
  {
    var r := InsertSequence(t, items);
    var k :| 0 <= k < |Roots(r)| && Roots(r)[k] == x;
    if k < |t.subtrees| {
      assert Roots(t)[k] == x;
    }
  }

  /** InsertSound when the first choice selects the child that received the insertion. */
  lemma {:induction false} InsertSoundSlot(t: Tree, items: seq<string>, path: seq<string>, x: string)
    requires |items| > 0 && |path| > 0
    requires ContainNum(InsertSequence(t, items), path[0]) == Some(Slot(t, items[0]))
    requires x in DecisionTreeMethod(InsertSequence(t, items), path)
    ensures x in DecisionTreeMethod(t, path) || path + [x] <= items
    decreases |path|, 0
  {
    var r, s := InsertSequence(t, items), Slot(t, items[0]);
    InsertShape(t, items);
    assert path[0] == items[0];
    var child := if s < |t.subtrees| then t.subtrees[s] else Tree(items[0], []);
    assert x in DecisionTreeMethod(InsertSequence(child, items[1..]), path[1..]);
    InsertSound(child, items[1..], path[1..], x);
    if s == |t.subtrees| {
      LeafAnswersNothing(items[0], path[1..]);
    }
    if path[1..] + [x] <= items[1..] {
      PrefixStep(items, path, x);
    }
  }

  /** Inserting the same sequence twice is the same as inserting it once. */
  lemma {:induction false} InsertIdempotent(t: Tree, items: seq<string>)
    ensures InsertSequence(InsertSequence(t, items), items) == InsertSequence(t, items)
    decreases |items|
  {
    if |items| > 0 {
      var r, s := InsertSequence(t, items), Slot(t, items[0]);
      InsertShape(t, items);
      InsertShape(r, items);
      assert Slot(r, items[0]) == s;
      InsertIdempotent(if s < |t.subtrees| then t.subtrees[s] else Tree(items[0], []), items[1..]);
      assert r.subtrees[s := InsertSequence(r.subtrees[s], items[1..])] == r.subtrees;
    }
  }

  /** The sequence `build_decision_tree` inserts for one row of the trait file: the answers
      (every column after the first) followed by the breed name (the first column).  A row
      with no columns raises IndexError. */
  function RowSequence(row: seq<string>): (r: Result<seq<string>>)
    ensures r.Err? <==> |row| == 0
    ensures r.Err? ==> r.error == IndexError
    ensures r.Ok? ==> |r.value| == |row| && r.value[|row| - 1] == row[0]
    ensures r.Ok? ==> r.value[..|row| - 1] == row[1..]
  {
    if |row| == 0 then Err(IndexError)
    else Ok(row[1..] + [row[0]])
  }

  /** Every one of the first `n` rows is non-empty and its breed is found by its answers. */
  ghost predicate FindsEach(t: Tree, rows: seq<seq<string>>, n: nat)
    requires n <= |rows|
  {
    forall k :: 0 <= k < n ==> |rows[k]| > 0 && rows[k][0] in DecisionTreeMethod(t, rows[k][1..])
  }

  /** `path + [x]` starts the sequence of one of the first `n` rows. */
  ghost predicate Spelled(rows: seq<seq<string>>, n: nat, path: seq<string>, x: string)
    requires n <= |rows|
  {
    exists k :: 0 <= k < n && |rows[k]| > 0 && path + [x] <= rows[k][1..] + [rows[k][0]]
  }

  /** Every answer the tree gives is spelled by one of the first `n` rows. */
  ghost predicate OnlySpelled(t: Tree, rows: seq<seq<string>>, n: nat)
    requires n <= |rows|
  {
    forall path, x :: x in DecisionTreeMethod(t, path) ==> Spelled(rows, n, path, x)
  }

  /** One pass of the loop of `build_decision_tree` keeps both facts. */
  lemma InsertRowStep(t: Tree, rows: seq<seq<string>>, i: nat)
    requires i < |rows| && |rows[i]| > 0
    requires FindsEach(t, rows, i) && OnlySpelled(t, rows, i)
    ensures var next := InsertSequence(t, rows[i][1..] + [rows[i][0]]);
            FindsEach(next, rows, i + 1) && OnlySpelled(next, rows, i + 1)
  {
    var items := rows[i][1..] + [rows[i][0]];
    var next := InsertSequence(t, items);
    forall k | 0 <= k < i
      ensures rows[k][0] in DecisionTreeMethod(next, rows[k][1..])
    {
      LookupPreservedByInsert(t, items, rows[k][1..], rows[k][0]);
    }
    LookupAfterInsert(t, rows[i][1..], rows[i][0]);
    forall path, x | x in DecisionTreeMethod(next, path)
      ensures Spelled(rows, i + 1, path, x)
    {
      InsertSound(t, items, path, x);
      if x in DecisionTreeMethod(t, path) {
        assert Spelled(rows, i, path, x);
      }
    }
  }

  /** `build_decision_tree` on the rows of the trait file (header already skipped): inserts
      every row into a tree with root "" and raises IndexError on an empty row.  Every
      breed is then found by its own answers, and every answer the tree gives is spelled by
      the start of some row's sequence. */
  method BuildDecisionTree(rows: seq<seq<string>>) returns (r: Result<Tree>)
    ensures r.Err? <==> exists k :: 0 <= k < |rows| && |rows[k]| == 0
    ensures r.Err? ==> r.error == IndexError
    ensures r.Ok? ==> r.value.root == "" && UniqueRoots(r.value)
    ensures r.Ok? ==> forall k :: 0 <= k < |rows| ==> rows[k][0] in DecisionTreeMethod(r.value, rows[k][1..])
    ensures r.Ok? ==> forall path, x :: x in DecisionTreeMethod(r.value, path) ==>
                        exists k :: 0 <= k < |rows| && |rows[k]| > 0 && path + [x] <= rows[k][1..] + [rows[k][0]]
  {
    var tree := Tree("", []);
    forall path | true
      ensures DecisionTreeMethod(tree, path) == []
    {
      LeafAnswersNothing("", path);
    }
    var i := 0;
    while i < |rows|
      invariant 0 <= i <= |rows|
      invariant tree.root == "" && UniqueRoots(tree)
      invariant FindsEach(tree, rows, i) && OnlySpelled(tree, rows, i)
    {
      var items :- RowSequence(rows[i]);
      InsertRowStep(tree, rows, i);
      InsertKeepsUniqueRoots(tree, items);
      tree := InsertSequence(tree, items);
      i := i + 1;
    }
    return Ok(tree);
  }
}
