/** Walks up the process tree, from child to parent, and the insertions that keep all of them finite. */
module ProcessTree {

  /** The pid reached after `n` steps towards the root, staying put once off the tree. */
  function Up(tree: map<nat, nat>, pid: nat, n: nat): nat
    decreases n
  {
    if n == 0 || pid !in tree then pid else Up(tree, tree[pid], n - 1)
  }

  ghost predicate Ends(tree: map<nat, nat>, pid: nat) {
    exists n: nat :: Up(tree, pid, n) !in tree
  }

  /** Pid 0, the stand-in parent of orphans, has no parent, and every walk leaves the tree. */
  ghost predicate Grounded(tree: map<nat, nat>) {
    0 !in tree && forall pid: nat :: Ends(tree, pid)
  }

  /** `child` is `pid` itself or one of the pids on the walk up from it. */
  ghost predicate OnWalk(tree: map<nat, nat>, pid: nat, child: nat) {
    exists n: nat :: Up(tree, pid, n) == child
  }

  lemma {:induction false} UpAdd(tree: map<nat, nat>, pid: nat, a: nat, b: nat)
    ensures Up(tree, pid, a + b) == Up(tree, Up(tree, pid, a), b)
    decreases a
  {
    if a > 0 && pid in tree {
      UpAdd(tree, tree[pid], a - 1, b);
    }
  }

  lemma EndsBelow(tree: map<nat, nat>, pid: nat)
    requires pid in tree && Ends(tree, tree[pid])
    ensures Ends(tree, pid)
  {
    var n: nat :| Up(tree, tree[pid], n) !in tree;
    assert Up(tree, pid, n + 1) !in tree;
  }

  // ----- cutting and removing

  /** `cut` keeps entries of `tree` or makes them lead off the tree. */
  ghost predicate CutFrom(cut: map<nat, nat>, tree: map<nat, nat>) {
    forall c :: c in cut ==> c in tree && (cut[c] == tree[c] || cut[c] !in cut)
  }

  lemma {:induction false} CutEnds(cut: map<nat, nat>, tree: map<nat, nat>, pid: nat, n: nat)
    requires CutFrom(cut, tree) && Up(tree, pid, n) !in tree
    ensures Ends(cut, pid)
    decreases n
  {
    if pid !in cut {
      assert Up(cut, pid, 0) !in cut;
    } else if cut[pid] == tree[pid] {
      CutEnds(cut, tree, cut[pid], n - 1);
      EndsBelow(cut, pid);
    } else {
      assert Up(cut, cut[pid], 0) !in cut;
      EndsBelow(cut, pid);
    }
  }

  lemma CutKeepsGrounded(cut: map<nat, nat>, tree: map<nat, nat>)
    requires Grounded(tree) && CutFrom(cut, tree)
    ensures Grounded(cut)
  {
    forall pid: nat ensures Ends(cut, pid) {
      assert Ends(tree, pid);
      var n: nat :| Up(tree, pid, n) !in tree;
      CutEnds(cut, tree, pid, n);
    }
  }

  // ----- inserting

  lemma {:induction false} WalkAvoidsChild(tree: map<nat, nat>, parent: nat, child: nat, pid: nat, n: nat)
    requires !OnWalk(tree, pid, child)
    ensures Up(tree[child := parent], pid, n) == Up(tree, pid, n)
    decreases n
  {
    assert Up(tree, pid, 0) == pid;
    if n > 0 && pid in tree {
      forall m: nat ensures Up(tree, tree[pid], m) != child { assert Up(tree, pid, m + 1) != child; }
      WalkAvoidsChild(tree, parent, child, tree[pid], n - 1);
    }
  }

  lemma {:induction false} InsertedEnds(tree: map<nat, nat>, parent: nat, child: nat, pid: nat, n: nat)
    requires Ends(tree[child := parent], parent) && Up(tree, pid, n) !in tree
    ensures Ends(tree[child := parent], pid)
    decreases n
  {
    var grown := tree[child := parent];
    if pid == child {
      EndsBelow(grown, pid);
    } else if pid in tree {
      InsertedEnds(tree, parent, child, tree[pid], n - 1);
      EndsBelow(grown, pid);
    } else {
      assert Up(grown, pid, 0) !in grown;
    }
  }

  lemma {:induction false} WalkMeetsChild(tree: map<nat, nat>, parent: nat, child: nat, pid: nat, n: nat)
    requires Up(tree, pid, n) == child
    ensures OnWalk(tree[child := parent], pid, child)
    decreases n
  {
    var grown := tree[child := parent];
    if pid == child {
      assert Up(grown, pid, 0) == child;
    } else {
      WalkMeetsChild(tree, parent, child, tree[pid], n - 1);
      var m: nat :| Up(grown, tree[pid], m) == child;
      assert Up(grown, pid, m + 1) == child;
    }
  }

  /** A walk that comes back never ends. */
  lemma {:induction false} LoopNeverEnds(tree: map<nat, nat>, pid: nat, m: nat, n: nat)
    requires pid in tree && m > 0 && Up(tree, pid, m) == pid
    ensures Up(tree, pid, n) in tree
    decreases n
  {
    if n < m {
      UpAdd(tree, pid, n, m - n);
    } else {
      UpAdd(tree, pid, m, n - m);
      LoopNeverEnds(tree, pid, m, n - m);
    }
  }

  /** Recording `parent` as the parent of `child` keeps every walk finite exactly when `child` is a real
      pid that does not lie on the walk up from `parent`. */
  lemma InsertKeepsGrounded(tree: map<nat, nat>, parent: nat, child: nat)
    requires Grounded(tree)
    ensures Grounded(tree[child := parent]) <==> child != 0 && !OnWalk(tree, parent, child)
  {
    var grown := tree[child := parent];
    if OnWalk(tree, parent, child) {
      var n: nat :| Up(tree, parent, n) == child;
      WalkMeetsChild(tree, parent, child, parent, n);
      var m: nat :| Up(grown, parent, m) == child;
      assert Up(grown, child, m + 1) == child;
      forall k: nat ensures Up(grown, child, k) in grown { LoopNeverEnds(grown, child, m + 1, k); }
      assert !Ends(grown, child);
    } else if child != 0 {
      assert Ends(tree, parent);
      var n: nat :| Up(tree, parent, n) !in tree;
      WalkAvoidsChild(tree, parent, child, parent, n);
      assert Up(tree, parent, n) != child;
      assert Up(grown, parent, n) !in grown;
      forall pid: nat ensures Ends(grown, pid) {
        assert Ends(tree, pid);
        var k: nat :| Up(tree, pid, k) !in tree;
        InsertedEnds(tree, parent, child, pid, k);
      }
    }
  }
}
