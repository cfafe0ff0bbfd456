// The URDF reader's joint table with its chain cache, and when the walk up the
// table ends.
module UrdfTable {
  import opened Outcome
  import opened Permutations
  import opened JointChain

  // ------------------------------------------------------------- the chain

  // The chain runs from the root to the target, link by link, and every entry
  // is the first joint of the table with its child link.
  ghost predicate IsChain(joints: seq<Joint>, root: string, chain: seq<Joint>, target: string) {
    && (chain == [] ==> target == root)
    && (chain != [] ==> chain[0].parent == root && chain[|chain| - 1].child == target)
    && (forall i :: 0 <= i < |chain| - 1 ==> chain[i].child == chain[i + 1].parent)
    && (forall i :: 0 <= i < |chain| ==> IsFirst(joints, chain[i]) && chain[i].child != root)
  }

  ghost predicate IsFirst(joints: seq<Joint>, joint: Joint) {
    exists k :: 0 <= k < |joints| && joints[k] == joint && forall l :: 0 <= l < k ==> joints[l].child != joint.child
  }

  // The same, from some link inside.
  ghost predicate IsTail(joints: seq<Joint>, root: string, tail: seq<Joint>, link: string, target: string) {
    && (tail == [] ==> link == target)
    && (tail != [] ==> tail[0].parent == link && tail[|tail| - 1].child == target)
    && (forall i :: 0 <= i < |tail| - 1 ==> tail[i].child == tail[i + 1].parent)
    && (forall i :: 0 <= i < |tail| ==> IsFirst(joints, tail[i]) && tail[i].child != root)
  }

  // There is at most one chain to a link.
  lemma {:induction false} ChainUnique(joints: seq<Joint>, root: string, a: seq<Joint>, b: seq<Joint>, target: string)
    requires IsChain(joints, root, a, target) && IsChain(joints, root, b, target)
    ensures a == b
    decreases |a|
  {
    if a != [] && b != [] {
      var (m, n) := (|a| - 1, |b| - 1);
      FirstUnique(joints, a[m], b[n]);
      ChainUnique(joints, root, a[..m], b[..n], a[m].parent);
      assert a == a[..m] + [a[m]] && b == b[..n] + [b[n]];
    }
  }

  lemma FirstUnique(joints: seq<Joint>, a: Joint, b: Joint)
    requires IsFirst(joints, a) && IsFirst(joints, b) && a.child == b.child
    ensures a == b
  {
  }

  // ------------------------------------------------------------ termination

  // What `next(j for j in joints if ...)` finds.
  function FirstJoint(joints: seq<Joint>, link: string): (joint: Option<Joint>)
    ensures joint.Some? ==> joint.value.child == link && IsFirst(joints, joint.value)
    ensures joint.None? ==> forall k :: 0 <= k < |joints| ==> joints[k].child != link
  {
    if joints == [] then None
    else
      var n := |joints| - 1;
      var earlier := FirstJoint(joints[..n], link);
      if earlier.Some? then
        FirstStays(joints, earlier.value);
        earlier
      else if joints[n].child == link then
        assert forall l :: 0 <= l < n ==> joints[l] == joints[..n][l];
        Some(joints[n])
      else
        assert forall l :: 0 <= l < n ==> joints[l] == joints[..n][l];
        None
  }

  lemma FirstStays(joints: seq<Joint>, joint: Joint)
    requires joints != [] && IsFirst(joints[..|joints| - 1], joint)
    ensures IsFirst(joints, joint)
  {
    var front := joints[..|joints| - 1];
    var k :| 0 <= k < |front| && front[k] == joint && forall l :: 0 <= l < k ==> front[l].child != joint.child;
    assert joints[k] == joint && forall l :: 0 <= l < k ==> joints[l] == front[l];
  }

  // The walk from a link to the root ends within n joints, at the root or at a
  // link that hangs from nothing.
  ghost predicate Halts(joints: seq<Joint>, root: string, link: string, n: nat)
    decreases n
  {
    link == root ||
    match FirstJoint(joints, link)
    case None => true
    case Some(joint) => n > 0 && Halts(joints, root, joint.parent, n - 1)
  }

  lemma {:induction false} HaltsLater(joints: seq<Joint>, root: string, link: string, n: nat, m: nat)
    requires n <= m && Halts(joints, root, link, n)
    ensures Halts(joints, root, link, m)
    decreases n
  {
    var joint := FirstJoint(joints, link);
    if link != root && joint.Some? {
      HaltsLater(joints, root, joint.value.parent, n - 1, m - 1);
    }
  }

  // The walk that needs exactly n joints, as indices: no two alike.
  lemma {:induction false} Walk(joints: seq<Joint>, root: string, link: string, n: nat) returns (p: seq<int>)
    requires Halts(joints, root, link, n) && (n > 0 ==> !Halts(joints, root, link, n - 1))
    ensures |p| == n && forall i :: 0 <= i < n ==> 0 <= p[i] < |joints|
    ensures forall i :: 0 <= i < n ==> NeedsExactly(joints, root, joints[p[i]].child, n - i)
    decreases n
  {
    hide FirstJoint;
    if n == 0 {
      p := [];
    } else {
      var joint := FirstJoint(joints, link).value;
      var k :| 0 <= k < |joints| && joints[k] == joint;
      var rest := Walk(joints, root, joint.parent, n - 1);
      p := [k] + rest;
      forall i | 0 <= i < n
        ensures NeedsExactly(joints, root, joints[p[i]].child, n - i)
      {
        if i > 0 {
          assert p[i] == rest[i - 1];
        }
      }
    }
  }

  ghost predicate NeedsExactly(joints: seq<Joint>, root: string, link: string, n: int) {
    n > 0 && Halts(joints, root, link, n) && !Halts(joints, root, link, n - 1)
  }

  lemma {:induction false} LeastHalt(joints: seq<Joint>, root: string, link: string, n: nat) returns (m: nat)
    requires Halts(joints, root, link, n)
    ensures m <= n && Halts(joints, root, link, m) && (m > 0 ==> !Halts(joints, root, link, m - 1))
  {
    if n > 0 && Halts(joints, root, link, n - 1) {
      m := LeastHalt(joints, root, link, n - 1);
    } else {
      m := n;
    }
  }

  // A walk that ends at all ends within as many steps as the table has joints.
  lemma {:induction false} HaltsWithinTable(joints: seq<Joint>, root: string, link: string, n: nat)
    requires Halts(joints, root, link, n)
    ensures Halts(joints, root, link, |joints|)
  {
    var m := LeastHalt(joints, root, link, n);
    var p := Walk(joints, root, link, m);
    forall i, j | 0 <= i < j < m
      ensures p[i] != p[j]
    {
      assert NeedsExactly(joints, root, joints[p[i]].child, m - i);
      HaltsLater(joints, root, joints[p[j]].child, m - j, m - i - 1);
    }
    NoRoom(p, |joints|);
    HaltsLater(joints, root, link, m, |joints|);
  }

  // The link n joints above, if the walk gets that far.
  ghost function Upward(joints: seq<Joint>, root: string, link: string, n: nat): Option<string>
    decreases n
  {
    if n == 0 then Some(link)
    else if link == root then None
    else
      match FirstJoint(joints, link)
      case None => None
      case Some(joint) => Upward(joints, root, joint.parent, n - 1)
  }

  // The walk returns to a link it has left.
  ghost predicate Circles(joints: seq<Joint>, root: string, link: string) {
    exists i: nat, j: nat :: Returns(joints, root, link, i, j)
  }

  ghost predicate Returns(joints: seq<Joint>, root: string, link: string, i: nat, j: nat) {
    i < j && Upward(joints, root, link, i).Some? && Upward(joints, root, link, i) == Upward(joints, root, link, j)
  }

  // Along a walk that needs m joints, the link after i of them needs m - i.
  lemma {:induction false} UpwardNeeds(joints: seq<Joint>, root: string, link: string, m: nat, i: nat)
    requires Halts(joints, root, link, m) && (m > 0 ==> !Halts(joints, root, link, m - 1))
    requires Upward(joints, root, link, i).Some?
    ensures i <= m
    ensures var above := Upward(joints, root, link, i).value;
            Halts(joints, root, above, m - i) && (m > i ==> !Halts(joints, root, above, m - i - 1))
    decreases i
  {
    hide FirstJoint;
    if i > 0 {
      UpwardNeeds(joints, root, FirstJoint(joints, link).value.parent, m - 1, i - 1);
    }
  }

  lemma {:induction false} EndlessGoesOn(joints: seq<Joint>, root: string, link: string, n: nat)
    requires forall m: nat :: !Halts(joints, root, link, m)
    ensures Upward(joints, root, link, n).Some?
    ensures FirstJoint(joints, Upward(joints, root, link, n).value).Some?
    decreases n
  {
    hide FirstJoint;
    var joint := FirstJoint(joints, link);
    assert !Halts(joints, root, link, 0);
    forall m: nat
      ensures !Halts(joints, root, joint.value.parent, m)
    {
      var next := m + 1;
      assert !Halts(joints, root, link, next);
    }
    if n > 0 {
      EndlessGoesOn(joints, root, joint.value.parent, n - 1);
    }
  }

  lemma IndexOf(joints: seq<Joint>, link: string) returns (k: nat)
    requires FirstJoint(joints, link).Some?
    ensures k < |joints| && joints[k].child == link
  {
    k :| 0 <= k < |joints| && joints[k] == FirstJoint(joints, link).value;
  }

  // The joints an endless walk passes, as indices.
  lemma {:induction false} Passed(joints: seq<Joint>, root: string, link: string, n: nat) returns (p: seq<int>)
    requires forall m: nat :: !Halts(joints, root, link, m)
    ensures |p| == n && forall i :: 0 <= i < n ==> 0 <= p[i] < |joints|
    ensures forall i: nat :: i < n ==> Upward(joints, root, link, i) == Some(joints[p[i]].child)
    decreases n
  {
    if n == 0 {
      p := [];
    } else {
      EndlessGoesOn(joints, root, link, n - 1);
      hide FirstJoint, Upward, Halts;
      var k := IndexOf(joints, Upward(joints, root, link, n - 1).value);
      var front := Passed(joints, root, link, n - 1);
      p := front + [k];
    }
  }

  // The walk never ends exactly when it returns to a link it has left.
  lemma {:induction false} EndlessExactlyWhenCircling(joints: seq<Joint>, root: string, link: string)
    ensures !Halts(joints, root, link, |joints|) <==> Circles(joints, root, link)
  {
    hide Halts, Upward;
    if Halts(joints, root, link, |joints|) {
      var m := LeastHalt(joints, root, link, |joints|);
      forall i: nat, j: nat | Returns(joints, root, link, i, j)
        ensures false
      {
        UpwardNeeds(joints, root, link, m, i);
        UpwardNeeds(joints, root, link, m, j);
        HaltsLater(joints, root, Upward(joints, root, link, j).value, m - j, m - i - 1);
      }
    } else {
      forall m: nat
        ensures !Halts(joints, root, link, m)
      {
        if Halts(joints, root, link, m) {
          HaltsWithinTable(joints, root, link, m);
        }
      }
      var p := Passed(joints, root, link, |joints| + 1);
      if forall i: nat, j: nat :: i < j < |p| ==> p[i] != p[j] {
        NoRoom(p, |joints|);
      } else {
        var i: nat, j: nat :| i < j < |p| && p[i] == p[j];
        assert Upward(joints, root, link, i) == Some(joints[p[i]].child);
        assert Upward(joints, root, link, j) == Some(joints[p[j]].child);
        assert Returns(joints, root, link, i, j);
      }
    }
  }

  // A witness: two joints that hang from each other.
  lemma TwoJointsCircle(joints: seq<Joint>, root: string)
    requires |joints| == 2 && joints[0].child == joints[1].parent && joints[1].child == joints[0].parent
    requires joints[0].child != joints[1].child && root != joints[0].child && root != joints[1].child
    ensures !Halts(joints, root, joints[0].child, 2)
  {
    var a, b := joints[0].child, joints[1].child;
    assert FirstJoint(joints, a) == Some(joints[0]);
    assert FirstJoint(joints, b) == Some(joints[1]);
    hide FirstJoint;
    assert !Halts(joints, root, a, 0);
    assert !Halts(joints, root, b, 1);
  }

  // Links grow deeper from parent to child: what makes the joint table a tree.
  ghost predicate Acyclic(joints: seq<Joint>, depth: string -> nat) {
    forall k :: 0 <= k < |joints| ==> depth(joints[k].parent) < depth(joints[k].child)
  }

  // In a tree every walk ends.
  lemma {:induction false} TreesHalt(joints: seq<Joint>, root: string, link: string, depth: string -> nat)
    requires Acyclic(joints, depth)
    ensures Halts(joints, root, link, |joints|)
    decreases depth(link)
  {
    var joint := FirstJoint(joints, link);
    if link != root && joint.Some? {
      TreesHalt(joints, root, joint.value.parent, depth);
      assert Halts(joints, root, link, |joints| + 1);
      HaltsWithinTable(joints, root, link, |joints| + 1);
    }
  }

  // --------------------------------------------------------------- the class

  // The table read from the file, joint by joint.
  ghost predicate ReadFrom(trig: Trig, elements: seq<Element>, joints: seq<Joint>) {
    |joints| == |elements| && forall k :: 0 <= k < |elements| ==> joints[k] == JointOf(trig, elements[k])
  }

  ghost predicate IsLink(elements: seq<Element>, link: string) {
    exists k :: 0 <= k < |elements| && (elements[k].child == link || elements[k].parent == link)
  }

  predicate HasParent(joints: seq<Joint>, link: string) {
    exists k :: 0 <= k < |joints| && joints[k].child == link
  }

  // A link of the file that is nobody's child.
  ghost predicate IsRoot(elements: seq<Element>, link: string) {
    IsLink(elements, link) && forall k :: 0 <= k < |elements| ==> elements[k].child != link
  }

  lemma RootOf(trig: Trig, elements: seq<Element>, joints: seq<Joint>, link: string)
    requires ReadFrom(trig, elements, joints)
    ensures HasParent(joints, link) <==> exists k :: 0 <= k < |elements| && elements[k].child == link
  {
    forall k | 0 <= k < |elements|
      ensures joints[k].child == elements[k].child
    {
      ChildOf(trig, elements[k]);
    }
    hide JointOf;
  }

  lemma ChildOf(trig: Trig, e: Element)
    ensures JointOf(trig, e).child == e.child
  {
  }

  // Reads the joints and picks the root: the first link, in whatever order the
  // set of links comes, that is nobody's child.  Without one the reader raises.
  method ReadUrdf(trig: Trig, elements: seq<Element>, links: seq<string>) returns (r: Result<Urdf, string>)
    requires forall link :: link in links <==> IsLink(elements, link)
    ensures r.Success? <==> exists link :: IsRoot(elements, link)
    ensures r.Success? ==> fresh(r.value) && r.value.Valid() && r.value.chains == map[]
    ensures r.Success? ==> ReadFrom(trig, elements, r.value.joints) && IsRoot(elements, r.value.rootLink)
  {
    hide JointOf;
    var joints := [];
    for k := 0 to |elements|
      invariant ReadFrom(trig, elements[..k], joints)
    {
      joints := joints + [JointOf(trig, elements[k])];
    }
    assert elements[..|elements|] == elements;
    for n := 0 to |links|
      invariant forall m :: 0 <= m < n ==> !IsRoot(elements, links[m])
    {
      assert links[n] in links;
      RootOf(trig, elements, joints, links[n]);
      if !HasParent(joints, links[n]) {
        var link := links[n];
        assert IsRoot(elements, link);
        var urdf := new Urdf(joints, link);
        return Success(urdf);
      }
    }
    return Failure("StopIteration");
  }

  class Urdf {
    const joints: seq<Joint>
    const rootLink: string
    var chains: map<string, seq<Joint>>

    // Every cached chain is the chain to its link.
    ghost predicate Valid()
      reads this
    {
      forall link :: link in chains ==> IsChain(joints, rootLink, chains[link], link)
    }

    constructor (joints: seq<Joint>, rootLink: string)
      ensures Valid() && this.joints == joints && this.rootLink == rootLink && chains == map[]
    {
      this.joints := joints;
      this.rootLink := rootLink;
      chains := map[];
    }

    method FindJoint(child: string) returns (joint: Option<Joint>)
      ensures joint == FirstJoint(joints, child)
      ensures joint.Some? ==> joint.value.child == child && IsFirst(joints, joint.value)
      ensures joint.None? <==> forall k :: 0 <= k < |joints| ==> joints[k].child != child
    {
      for k := 0 to |joints|
        invariant FirstJoint(joints[..k], child).None?
      {
        assert joints[..k + 1][..k] == joints[..k];
        if joints[k].child == child {
          FirstOfPrefix(joints, child, k + 1);
          return Some(joints[k]);
        }
      }
      assert joints[..|joints|] == joints;
      return None;
    }

    // The cached chain, or the walk from the target up to the root, reversed.
    // Asked for where the walk ends, which on other tables it never does, it fails
    // exactly when the target hangs below no root joint.
    method Chain(target: string) returns (r: Result<seq<Joint>, string>)
      requires Valid()
      requires target in chains || Halts(joints, rootLink, target, |joints|)
      modifies this`chains
      ensures Valid()
      ensures r.Success? ==> IsChain(joints, rootLink, r.value, target)
      ensures r.Success? ==> chains == old(chains)[target := r.value]
      ensures r.Failure? ==> chains == old(chains)
      ensures r.Failure? ==> !exists chain :: IsChain(joints, rootLink, chain, target)
    {
      if target in chains {
        assert chains[target := chains[target]] == chains;
        return Success(chains[target]);
      }
      var upward: seq<Joint> := [];
      var link := target;
      ghost var steps: nat := |joints|;
      while link != rootLink
        invariant chains == old(chains)
        invariant IsTail(joints, rootLink, Reversed(upward), link, target)
        invariant Halts(joints, rootLink, link, steps)
        decreases steps
      {
        var joint := FindJoint(link);
        if joint.None? {
          NoChainThrough(joints, rootLink, Reversed(upward), link, target);
          return Failure("StopIteration");
        }
        TailGrows(joints, rootLink, Reversed(upward), link, target, joint.value);
        ReversedSnoc(upward, joint.value);
        upward := upward + [joint.value];
        link := joint.value.parent;
        steps := steps - 1;
      }
      var chain := Reversed(upward);
      assert IsChain(joints, rootLink, chain, target);
      chains := chains[target := chain];
      return Success(chain);
    }
  }

  lemma {:induction false} FirstOfPrefix(joints: seq<Joint>, link: string, k: nat)
    requires k <= |joints| && FirstJoint(joints[..k], link).Some?
    ensures FirstJoint(joints, link) == FirstJoint(joints[..k], link)
    decreases |joints|
  {
    if k < |joints| {
      var front := joints[..|joints| - 1];
      assert front[..k] == joints[..k];
      FirstOfPrefix(front, link, k);
    } else {
      assert joints[..k] == joints;
    }
  }

  // A chain of joints read from a file is mounted, whatever the table.
  lemma {:induction false} ChainIsMounted(trig: Trig, elements: seq<Element>, joints: seq<Joint>, root: string,
                                          chain: seq<Joint>, target: string)
    requires trig.Valid() && ReadFrom(trig, elements, joints) && IsChain(joints, root, chain, target)
    ensures Mounted(chain)
  {
    hide JointOf, Mounted;
    forall i | 0 <= i < |chain|
      ensures exists e :: e in elements && chain[i] == JointOf(trig, e)
    {
      var k :| 0 <= k < |joints| && joints[k] == chain[i];
      assert elements[k] in elements;
    }
    ReadJointsAreMounted(trig, elements, chain);
  }

  function Reversed(s: seq<Joint>): (r: seq<Joint>)
    ensures |r| == |s| && forall i :: 0 <= i < |s| ==> r[i] == s[|s| - 1 - i]
  {
    seq(|s|, i requires 0 <= i < |s| => s[|s| - 1 - i])
  }

  lemma ReversedSnoc(s: seq<Joint>, joint: Joint)
    ensures Reversed(s + [joint]) == [joint] + Reversed(s)
  {
  }

  lemma TailGrows(joints: seq<Joint>, root: string, tail: seq<Joint>, link: string, target: string, joint: Joint)
    requires IsTail(joints, root, tail, link, target) && link != root
    requires joint.child == link && IsFirst(joints, joint)
    ensures IsTail(joints, root, [joint] + tail, joint.parent, target)
  {
  }

  // A link without a joint above it is on no chain.
  lemma {:induction false} NoChainThrough(joints: seq<Joint>, root: string, tail: seq<Joint>, link: string,
                                          target: string)
    requires IsTail(joints, root, tail, link, target) && link != root
    requires forall k :: 0 <= k < |joints| ==> joints[k].child != link
    ensures !exists chain :: IsChain(joints, root, chain, target)
  {
    forall chain | IsChain(joints, root, chain, target)
      ensures false
    {
      PrefixToLink(joints, root, chain, tail, link, target);
    }
  }

  lemma {:induction false} PrefixToLink(joints: seq<Joint>, root: string, chain: seq<Joint>, tail: seq<Joint>,
                                        link: string, target: string)
    requires IsTail(joints, root, tail, link, target) && link != root
    requires IsChain(joints, root, chain, target)
    ensures exists k :: 0 <= k < |joints| && joints[k].child == link
    decreases |tail|
  {
    if tail == [] {
      assert IsFirst(joints, chain[|chain| - 1]);
    } else {
      var (m, n) := (|chain| - 1, |tail| - 1);
      assert target != root;
      FirstUnique(joints, chain[m], tail[n]);
      PrefixToLink(joints, root, chain[..m], tail[..n], link, tail[n].parent);
    }
  }
}
