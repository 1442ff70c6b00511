/**
 * The heading tree (`_build_heading_tree`): a flat, document-ordered list of
 * headings folded into a forest in which every heading hangs under the
 * nearest earlier heading that is strictly shallower.
 *
 * The source appends each new node to `stack[-1]["children"]`, a list it
 * shares with the tree under construction. Here the stack loop records that
 * attachment as an index (`parent[k]` is the heading whose children received
 * heading k, -1 for the root list) and `Attached` assembles the nested value
 * those appends produce. `BuildForest` is an independent recursive
 * definition of the same forest; `ForestAgreement` proves the two equal.
 */
module HeadingTree {

  /** One entry of the flat heading list: `{level, text, paragraph_index}`. */
  datatype Heading = Heading(level: nat, text: string, paragraphIndex: nat)

  /** One node of the tree: `{level, text, paragraph_index, children}`. */
  datatype HeadingNode = Node(level: nat, text: string, paragraphIndex: nat, children: seq<HeadingNode>)

  function HeadingOf(n: HeadingNode): Heading {
    Heading(n.level, n.text, n.paragraphIndex)
  }

  function NodeOf(h: Heading, children: seq<HeadingNode>): HeadingNode {
    Node(h.level, h.text, h.paragraphIndex, children)
  }

  /** The headings of a forest, each node before its children, siblings in order. */
  function Preorder(f: seq<HeadingNode>): seq<Heading>
    decreases f
  {
    if f == [] then [] else [HeadingOf(f[0])] + Preorder(f[0].children) + Preorder(f[1..])
  }

  /** Every child is strictly deeper than its parent, at every depth. */
  predicate ChildrenDeeper(f: seq<HeadingNode>)
    decreases f
  {
    forall i :: 0 <= i < |f| ==>
      (forall c :: c in f[i].children ==> c.level > f[i].level) && ChildrenDeeper(f[i].children)
  }

  // ---------------------------------------------------------------------------
  // The recursive definition

  /** The first index in `k..b` whose heading is as shallow as `hs[a]`, or `b`: where the subtree of `hs[a]` ends. */
  function SubtreeEnd(hs: seq<Heading>, a: nat, k: nat, b: nat): (e: nat)
    requires a < k <= b <= |hs|
    ensures k <= e <= b
    ensures forall m :: k <= m < e ==> hs[m].level > hs[a].level
    ensures e == b || hs[e].level <= hs[a].level
    decreases b - k
  {
    if k == b || hs[k].level <= hs[a].level then k else SubtreeEnd(hs, a, k + 1, b)
  }

  /**
   * The forest of the headings `hs[a..b]`: the first heading owns the deeper
   * headings that follow it; the rest form its later siblings.
   */
  function Forest(hs: seq<Heading>, a: nat, b: nat): seq<HeadingNode>
    requires a <= b <= |hs|
    decreases b - a
  {
    if a == b then []
    else
      var e := SubtreeEnd(hs, a, a + 1, b);
      [NodeOf(hs[a], Forest(hs, a + 1, e))] + Forest(hs, e, b)
  }

  /** The forest of a whole heading list. */
  function BuildForest(hs: seq<Heading>): seq<HeadingNode> {
    Forest(hs, 0, |hs|)
  }

  lemma {:induction false} PreorderOfRange(hs: seq<Heading>, a: nat, b: nat)
    requires a <= b <= |hs|
    ensures Preorder(Forest(hs, a, b)) == hs[a..b]
    decreases b - a
  {
    if a < b {
      var e := SubtreeEnd(hs, a, a + 1, b);
      var f := Forest(hs, a, b);
      PreorderOfRange(hs, a + 1, e);
      PreorderOfRange(hs, e, b);
      assert f[0].children == Forest(hs, a + 1, e);
      assert f[1..] == Forest(hs, e, b);
      SliceCons(hs, a, e, b);
    }
  }

  lemma SliceCons(hs: seq<Heading>, a: nat, e: nat, b: nat)
    requires a < e <= b <= |hs|
    ensures hs[a..b] == [hs[a]] + hs[a + 1..e] + hs[e..b]
  {
    assert hs[a..b] == hs[a..e] + hs[e..b];
    assert hs[a..e] == [hs[a]] + hs[a + 1..e];
  }

  /** Every heading appears exactly once, and pre-order traversal gives back the input list. */
  lemma PreorderOfForest(hs: seq<Heading>)
    ensures Preorder(BuildForest(hs)) == hs
  {
    PreorderOfRange(hs, 0, |hs|);
    assert hs[0..|hs|] == hs;
  }

  /** The roots of the forest built from headings all deeper than `bound` are deeper than `bound`. */
  lemma {:induction false} RootsDeeperThan(hs: seq<Heading>, a: nat, b: nat, bound: nat)
    requires a <= b <= |hs|
    requires forall k :: a <= k < b ==> hs[k].level > bound
    ensures forall n :: n in Forest(hs, a, b) ==> n.level > bound
    decreases b - a
  {
    if a < b {
      var e := SubtreeEnd(hs, a, a + 1, b);
      RootsDeeperThan(hs, e, b, bound);
    }
  }

  lemma ChildrenDeeperCons(n: HeadingNode, rest: seq<HeadingNode>)
    requires forall c :: c in n.children ==> c.level > n.level
    requires ChildrenDeeper(n.children) && ChildrenDeeper(rest)
    ensures ChildrenDeeper([n] + rest)
  {
    var f := [n] + rest;
    forall i | 0 <= i < |f|
      ensures (forall c :: c in f[i].children ==> c.level > f[i].level) && ChildrenDeeper(f[i].children)
    {
      if i > 0 {
        assert f[i] == rest[i - 1];
      }
    }
  }

  /** One step of the forest: a node whose children are deeper, followed by a well-formed rest. */
  lemma ForestStepDeeper(hs: seq<Heading>, a: nat, e: nat, b: nat)
    requires a < b <= |hs| && e == SubtreeEnd(hs, a, a + 1, b)
    requires ChildrenDeeper(Forest(hs, a + 1, e)) && ChildrenDeeper(Forest(hs, e, b))
    requires forall n :: n in Forest(hs, a + 1, e) ==> n.level > hs[a].level
    ensures ChildrenDeeper(Forest(hs, a, b))
  {
    var node := NodeOf(hs[a], Forest(hs, a + 1, e));
    ChildrenDeeperCons(node, Forest(hs, e, b));
  }

  lemma {:induction false} RangeChildrenDeeper(hs: seq<Heading>, a: nat, b: nat)
    requires a <= b <= |hs|
    ensures ChildrenDeeper(Forest(hs, a, b))
    decreases b - a
  {
    if a < b {
      var e := SubtreeEnd(hs, a, a + 1, b);
      RangeChildrenDeeper(hs, a + 1, e);
      RangeChildrenDeeper(hs, e, b);
      RootsDeeperThan(hs, a + 1, e, hs[a].level);
      ForestStepDeeper(hs, a, e, b);
    }
  }

  /** Children are strictly deeper than their parent throughout the forest. */
  lemma ForestChildrenDeeper(hs: seq<Heading>)
    ensures ChildrenDeeper(BuildForest(hs))
  {
    RangeChildrenDeeper(hs, 0, |hs|);
  }

  /** Level gaps are kept: a level-3 heading right after a level-1 heading becomes its child. */
  lemma LevelGapKept()
    ensures BuildForest([Heading(1, "A", 0), Heading(3, "B", 1)])
         == [Node(1, "A", 0, [Node(3, "B", 1, [])])]
  {
    var hs := [Heading(1, "A", 0), Heading(3, "B", 1)];
    assert SubtreeEnd(hs, 0, 1, 2) == 2;
    assert SubtreeEnd(hs, 1, 2, 2) == 2;
    assert Forest(hs, 1, 2) == [Node(3, "B", 1, [])];
  }

  // ---------------------------------------------------------------------------
  // Attachment by parent index

  /** The largest index below `j` whose heading is strictly shallower than `hs[k]`, or -1. */
  function NearestShallower(hs: seq<Heading>, k: nat, j: nat): (r: int)
    requires k < |hs| && j <= |hs|
    ensures -1 <= r < j
    decreases j
  {
    if j == 0 then -1
    else if hs[j - 1].level < hs[k].level then j - 1
    else NearestShallower(hs, k, j - 1)
  }

  /** The heading `NearestShallower` finds is shallower than `hs[k]`, and none after it below `j` is. */
  lemma {:induction false} NearestShallowerSpec(hs: seq<Heading>, k: nat, j: nat)
    requires k < |hs| && j <= |hs|
    ensures NearestShallower(hs, k, j) >= 0 ==> hs[NearestShallower(hs, k, j)].level < hs[k].level
    ensures forall m :: NearestShallower(hs, k, j) < m < j ==> hs[m].level >= hs[k].level
    decreases j
  {
    if j > 0 && hs[j - 1].level >= hs[k].level {
      NearestShallowerSpec(hs, k, j - 1);
    }
  }

  /** Where heading k is attached: under the nearest earlier strictly shallower heading, or at the root (-1). */
  function Parent(hs: seq<Heading>, k: nat): int
    requires k < |hs|
  {
    NearestShallower(hs, k, k)
  }

  /** The parent of heading k is an earlier, strictly shallower heading with none shallower between them; the root parent -1 means none earlier is shallower. */
  lemma ParentSpec(hs: seq<Heading>, k: nat)
    requires k < |hs|
    ensures -1 <= Parent(hs, k) < k
    ensures Parent(hs, k) >= 0 ==> hs[Parent(hs, k)].level < hs[k].level
    ensures forall m :: Parent(hs, k) < m < k ==> hs[m].level >= hs[k].level
  {
    NearestShallowerSpec(hs, k, k);
  }

  predicate WellFormedParents(hs: seq<Heading>, parent: seq<int>) {
    |parent| == |hs| && forall k :: 0 <= k < |hs| ==> -1 <= parent[k] < k
  }

  function Parents(hs: seq<Heading>): (parent: seq<int>)
    ensures WellFormedParents(hs, parent)
  {
    seq(|hs|, k requires 0 <= k < |hs| => Parent(hs, k))
  }

  /**
   * The nodes attached under `p` (-1: the root list) among headings `from..`,
   * in attachment order, each carrying the nodes attached under it.
   */
  function Attached(hs: seq<Heading>, parent: seq<int>, p: int, from: nat): seq<HeadingNode>
    requires WellFormedParents(hs, parent)
    requires -1 <= p < from
    decreases |hs| - p, |hs| - from
  {
    if from >= |hs| then []
    else
      var later := Attached(hs, parent, p, from + 1);
      if parent[from] == p then [NodeOf(hs[from], Attached(hs, parent, from, from + 1))] + later
      else later
  }

  lemma {:induction false} AttachedSkip(hs: seq<Heading>, parent: seq<int>, p: int, x: nat, y: nat)
    requires WellFormedParents(hs, parent)
    requires -1 <= p < x <= y <= |hs|
    requires forall k :: x <= k < y ==> parent[k] != p
    ensures Attached(hs, parent, p, x) == Attached(hs, parent, p, y)
    decreases y - x
  {
    if x < y {
      AttachedSkip(hs, parent, p, x + 1, y);
    }
  }

  /** Nothing at or after a heading as shallow as `hs[p]` is attached under `p`. */
  lemma NoneAttachedBeyond(hs: seq<Heading>, p: nat, b: nat)
    requires p < b < |hs| && hs[b].level <= hs[p].level
    ensures forall k :: b <= k < |hs| ==> Parent(hs, k) != p
  {
    forall k | b <= k < |hs| ensures Parent(hs, k) != p {
      ParentSpec(hs, k);
      var q := Parent(hs, k);
      assert q < b ==> hs[b].level >= hs[k].level || b == k;
    }
  }

  /** The first heading of such a segment hangs under `p`. */
  lemma SegmentHeadParent(hs: seq<Heading>, a: nat, p: int)
    requires a < |hs| && -1 <= p < a
    requires p >= 0 ==> hs[p].level < hs[a].level
    requires forall m :: p < m < a ==> hs[m].level >= hs[a].level
    ensures Parent(hs, a) == p
  {
    ParentSpec(hs, a);
  }

  /** The headings of a subtree hang under its root or deeper, never under the root's own parent. */
  lemma SubtreeNotUnder(hs: seq<Heading>, a: nat, n: nat, p: int)
    requires -1 <= p < a < n <= |hs|
    requires forall k :: a < k < n ==> hs[k].level > hs[a].level
    ensures forall k :: a < k < n ==> Parent(hs, k) != p
  {
    forall k | a < k < n ensures Parent(hs, k) != p {
      ParentSpec(hs, k);
    }
  }

  /** The nodes under `p` from `a` on, when `a` hangs under `p` and the next one to do so is at or after `n`. */
  lemma AttachedHead(hs: seq<Heading>, parent: seq<int>, p: int, a: nat, n: nat)
    requires WellFormedParents(hs, parent)
    requires -1 <= p < a < n <= |hs|
    requires parent[a] == p
    requires forall k :: a < k < n ==> parent[k] != p
    ensures Attached(hs, parent, p, a) == [NodeOf(hs[a], Attached(hs, parent, a, a + 1))] + Attached(hs, parent, p, n)
  {
    AttachedSkip(hs, parent, p, a + 1, n);
  }

  /** The heading that closes a subtree is no deeper than anything between `p` and it. */
  lemma NextRootSeparated(hs: seq<Heading>, p: int, a: nat, n: nat)
    requires -1 <= p < a < n < |hs|
    requires forall m :: p < m < a ==> hs[m].level >= hs[a].level
    requires forall k :: a < k < n ==> hs[k].level > hs[a].level
    requires hs[n].level <= hs[a].level
    ensures forall m :: p < m < n ==> hs[m].level >= hs[n].level
  {
  }

  /**
   * Headings `a..b` form a run of sibling subtrees under `p`: every heading in it is
   * deeper than `hs[p]`, nothing between `p` and `a` is shallower than `hs[a]`,
   * and the run ends at the document end or at a heading as shallow as `hs[p]`.
   */
  predicate SegmentUnder(hs: seq<Heading>, a: nat, b: nat, p: int) {
    a <= b <= |hs| && -1 <= p < a
    && (p >= 0 ==> forall k :: a <= k < b ==> hs[p].level < hs[k].level)
    && (a < b ==> forall m :: p < m < a ==> hs[m].level >= hs[a].level)
    && (b == |hs| || (p >= 0 && hs[b].level <= hs[p].level))
  }

  /** The first subtree of a non-empty run, headings `a + 1..n` under `a`, and the rest, headings `n..b` under `p`, are runs again. */
  lemma SplitSegment(hs: seq<Heading>, a: nat, b: nat, p: int) returns (n: nat)
    requires SegmentUnder(hs, a, b, p) && a < b
    ensures n == SubtreeEnd(hs, a, a + 1, b)
    ensures SegmentUnder(hs, a + 1, n, a) && SegmentUnder(hs, n, b, p)
  {
    n := SubtreeEnd(hs, a, a + 1, b);
    if n < b {
      NextRootSeparated(hs, p, a, n);
    }
  }

  /** Both definitions give the same forest for headings `a..b` under `p`. */
  predicate Agree(hs: seq<Heading>, a: nat, b: nat, p: int)
    requires a <= b <= |hs| && -1 <= p < a
  {
    Forest(hs, a, b) == Attached(hs, Parents(hs), p, a)
  }

  /** An empty run: nothing from `a` on is attached under `p`. */
  lemma EmptySegment(hs: seq<Heading>, a: nat, p: int)
    requires SegmentUnder(hs, a, a, p)
    ensures Agree(hs, a, a, p)
  {
    if a < |hs| {
      NoneAttachedBeyond(hs, p, a);
    }
    AttachedSkip(hs, Parents(hs), p, a, |hs|);
  }

  /** When both parts of a split run agree, the whole run does: both definitions split it the same way. */
  lemma JoinSegments(hs: seq<Heading>, a: nat, b: nat, p: int, n: nat)
    requires SegmentUnder(hs, a, b, p) && a < b
    requires n == SubtreeEnd(hs, a, a + 1, b)
    requires Agree(hs, a + 1, n, a) && Agree(hs, n, b, p)
    ensures Agree(hs, a, b, p)
  {
    SegmentHeadParent(hs, a, p);
    SubtreeNotUnder(hs, a, n, p);
    AttachedHead(hs, Parents(hs), p, a, n);
  }

  /** Both definitions build the same forest from a run of sibling subtrees. */
  lemma {:induction false} ForestSegment(hs: seq<Heading>, a: nat, b: nat, p: int)
    requires SegmentUnder(hs, a, b, p)
    ensures Agree(hs, a, b, p)
    decreases b - a
  {
    if a == b {
      EmptySegment(hs, a, p);
    } else {
      var n := SplitSegment(hs, a, b, p);
      ForestSegment(hs, a + 1, n, a);
      ForestSegment(hs, n, b, p);
      JoinSegments(hs, a, b, p, n);
    }
  }

  /** The recursive forest is exactly the forest the stack's attachments produce. */
  lemma ForestAgreement(hs: seq<Heading>)
    ensures BuildForest(hs) == Attached(hs, Parents(hs), -1, 0)
  {
    ForestSegment(hs, 0, |hs|, -1);
  }

  // ---------------------------------------------------------------------------
  // The stack loop

  /** Heading j is still on the stack after the first i headings: none of them since j is as shallow as j. */
  predicate Open(hs: seq<Heading>, i: nat, j: nat)
    requires j < i <= |hs|
  {
    forall m :: j < m < i ==> hs[m].level > hs[j].level
  }

  predicate StackOrdered(hs: seq<Heading>, stack: seq<nat>)
    requires forall x :: 0 <= x < |stack| ==> stack[x] < |hs|
  {
    forall x, y :: 0 <= x < y < |stack| ==> stack[x] < stack[y] && hs[stack[x]].level < hs[stack[y]].level
  }

  /**
   * After popping every heading at least as deep as heading i, the stack holds
   * exactly the open headings shallower than i, and its top is i's parent.
   */
  lemma PoppedStack(hs: seq<Heading>, i: nat, before: seq<nat>, stack: seq<nat>)
    requires i < |hs|
    requires forall x :: 0 <= x < |before| ==> before[x] < i
    requires StackOrdered(hs, before)
    requires forall j :: 0 <= j < i ==> (j in before <==> Open(hs, i, j))
    requires |stack| <= |before| && stack == before[..|stack|]
    requires forall x :: |stack| <= x < |before| ==> hs[before[x]].level >= hs[i].level
    requires |stack| == 0 || hs[stack[|stack| - 1]].level < hs[i].level
    ensures forall j :: 0 <= j < i ==> (j in stack <==> Open(hs, i, j) && hs[j].level < hs[i].level)
    ensures (if |stack| > 0 then stack[|stack| - 1] else -1) == Parent(hs, i)
  {
    forall j | 0 <= j < i ensures j in stack <==> Open(hs, i, j) && hs[j].level < hs[i].level {
      if j in stack {
        var x :| 0 <= x < |stack| && stack[x] == j;
        assert before[x] == j;
        assert x == |stack| - 1 || hs[stack[x]].level < hs[stack[|stack| - 1]].level;
      }
      if Open(hs, i, j) && hs[j].level < hs[i].level {
        var x :| 0 <= x < |before| && before[x] == j;
        assert x < |stack|;
        assert stack[x] == j;
      }
    }
    var top := if |stack| > 0 then stack[|stack| - 1] else -1;
    var r := Parent(hs, i);
    ParentSpec(hs, i);
    if r >= 0 {
      assert Open(hs, i, r);
      var x :| 0 <= x < |stack| && stack[x] == r;
      assert x == |stack| - 1 || stack[x] < stack[|stack| - 1];
      assert stack[|stack| - 1] in stack;
    }
  }

  /**
   * The stack after the first i headings: indices of earlier headings in
   * increasing order of index and level, exactly the headings still open.
   */
  predicate StackInv(hs: seq<Heading>, i: nat, stack: seq<nat>)
    requires i <= |hs|
  {
    (forall x :: 0 <= x < |stack| ==> stack[x] < i)
    && StackOrdered(hs, stack)
    && forall j :: 0 <= j < i ==> (j in stack <==> Open(hs, i, j))
  }

  /** Pushing heading i onto the popped stack gives the stack after the first i + 1 headings. */
  lemma PushedStack(hs: seq<Heading>, i: nat, stack: seq<nat>)
    requires i < |hs|
    requires forall j :: 0 <= j < i ==> (j in stack <==> Open(hs, i, j) && hs[j].level < hs[i].level)
    requires forall x :: 0 <= x < |stack| ==> stack[x] < i
    requires StackOrdered(hs, stack)
    ensures StackInv(hs, i + 1, stack + [i])
  {
    var pushed := stack + [i];
    forall j | 0 <= j < i + 1 ensures j in pushed <==> Open(hs, i + 1, j) {
      if j < i {
        assert Open(hs, i + 1, j) <==> Open(hs, i, j) && hs[j].level < hs[i].level;
      }
    }
    forall x, y | 0 <= x < y < |pushed| ensures pushed[x] < pushed[y] && hs[pushed[x]].level < hs[pushed[y]].level {
      if y == |stack| {
        assert stack[x] in stack;
      }
    }
  }

  /**
   * The `while stack and stack[-1]["level"] >= node["level"]: stack.pop()` loop:
   * drops the open headings at least as deep as heading i; the new top is i's parent.
   */
  method PopDeeper(hs: seq<Heading>, i: nat, stack: seq<nat>) returns (rest: seq<nat>)
    requires i < |hs| && StackInv(hs, i, stack)
    ensures |rest| <= |stack| && rest == stack[..|rest|]
    ensures forall x :: 0 <= x < |rest| ==> rest[x] < i
    ensures StackOrdered(hs, rest)
    ensures forall j :: 0 <= j < i ==> (j in rest <==> Open(hs, i, j) && hs[j].level < hs[i].level)
    ensures (if |rest| > 0 then rest[|rest| - 1] else -1) == Parent(hs, i)
  {
    rest := stack;
    while |rest| > 0 && hs[rest[|rest| - 1]].level >= hs[i].level
      invariant |rest| <= |stack| && rest == stack[..|rest|]
      invariant forall x :: |rest| <= x < |stack| ==> hs[stack[x]].level >= hs[i].level
    {
      rest := rest[..|rest| - 1];
    }
    PoppedStack(hs, i, stack, rest);
  }

  /** A heading is a root exactly when no earlier heading is shallower; otherwise it hangs under the nearest shallower one. */
  lemma ParentsCharacterized(hs: seq<Heading>)
    ensures forall k :: 0 <= k < |hs| ==>
      (Parents(hs)[k] == -1 <==> forall m :: 0 <= m < k ==> hs[m].level >= hs[k].level)
    ensures forall k :: 0 <= k < |hs| && Parents(hs)[k] != -1 ==>
      0 <= Parents(hs)[k] < k && hs[Parents(hs)[k]].level < hs[k].level
      && forall m :: Parents(hs)[k] < m < k ==> hs[m].level >= hs[k].level
  {
    var parent := Parents(hs);
    forall k | 0 <= k < |hs|
      ensures parent[k] == -1 <==> forall m :: 0 <= m < k ==> hs[m].level >= hs[k].level
      ensures parent[k] != -1 ==>
        0 <= parent[k] < k && hs[parent[k]].level < hs[k].level
        && forall m :: parent[k] < m < k ==> hs[m].level >= hs[k].level
    {
      ParentSpec(hs, k);
      assert parent[k] == Parent(hs, k);
    }
  }

  /**
   * The stack loop of `_build_heading_tree`: each heading pops the open
   * headings at least as deep as itself, is attached under the new top of the
   * stack (or at the root when the stack is empty), and is pushed.
   */
  method StackParents(hs: seq<Heading>) returns (parent: seq<int>)
    ensures parent == Parents(hs)
  {
    var stack: seq<nat> := [];
    parent := [];
    for i := 0 to |hs|
      invariant parent == Parents(hs)[..i]
      invariant StackInv(hs, i, stack)
    {
      stack := PopDeeper(hs, i, stack);
      var top := if |stack| > 0 then stack[|stack| - 1] else -1;
      assert Parents(hs)[..i + 1] == Parents(hs)[..i] + [top];
      parent := parent + [top];
      PushedStack(hs, i, stack);
      stack := stack + [i];
    }
    assert Parents(hs)[..|hs|] == Parents(hs);
  }

  /**
   * `_build_heading_tree`. `parent` records where each heading was appended:
   * under the nearest earlier strictly shallower heading, or at the root when
   * every earlier heading is at least as deep.
   */
  method BuildHeadingTree(hs: seq<Heading>) returns (tree: seq<HeadingNode>, parent: seq<int>)
    ensures |parent| == |hs|
    ensures forall k :: 0 <= k < |hs| ==>
      (parent[k] == -1 <==> forall m :: 0 <= m < k ==> hs[m].level >= hs[k].level)
    ensures forall k :: 0 <= k < |hs| && parent[k] != -1 ==>
      0 <= parent[k] < k && hs[parent[k]].level < hs[k].level
      && forall m :: parent[k] < m < k ==> hs[m].level >= hs[k].level
    ensures WellFormedParents(hs, parent) && tree == Attached(hs, parent, -1, 0)
    ensures tree == BuildForest(hs)
    ensures Preorder(tree) == hs
    ensures ChildrenDeeper(tree)
  {
    parent := StackParents(hs);
    tree := Attached(hs, parent, -1, 0);
    ParentsCharacterized(hs);
    ForestAgreement(hs);
    PreorderOfForest(hs);
    ForestChildrenDeeper(hs);
  }
}
