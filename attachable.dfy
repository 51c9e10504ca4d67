/**
 * Attachable.java: objects with at most one parent and a set of attached
 * children, and the walk from an object up to the root of its parent chain.
 */
module Attachments {
  class Attachable {
    var parent: Attachable?
    var attachments: set<Attachable>

    constructor ()
      ensures parent == null && attachments == {}
    {
      parent := null;
      attachments := {};
    }

    /** isAttached: the object has a parent. */
    predicate IsAttached()
      reads this
    {
      parent != null
    }

    /**
     * addAttachment: adopts `a` unless it already has a parent, in which case only
     * the warning (`warned`) is produced. Attaching an object to itself is not refused.
     */
    method AddAttachment(a: Attachable) returns (warned: bool)
      modifies this`attachments, a`parent
      ensures warned == old(a.IsAttached())
      ensures !warned ==> attachments == old(attachments) + {a} && a.parent == this && a.IsAttached()
      ensures warned ==> attachments == old(attachments) && a.parent == old(a.parent)
    {
      if a.parent != null {
        warned := true;
        return;
      }
      warned := false;
      attachments := attachments + {a};
      a.parent := this;
    }

    /** removeAttachment: releases `a` if it is a child, and otherwise does nothing. */
    method RemoveAttachment(a: Attachable)
      modifies this`attachments, a`parent
      ensures old(a in attachments) ==> attachments == old(attachments) - {a} && a.parent == null && !a.IsAttached()
      ensures old(a !in attachments) ==> attachments == old(attachments) && a.parent == old(a.parent)
    {
      if a in attachments {
        attachments := attachments - {a};
        a.parent := null;
      }
    }

    /**
     * getRootParent, as a synchronous loop: the object itself when it has no
     * parent, otherwise the first ancestor without a parent. The walk only ends on
     * an acyclic chain; `chain` is that chain, from this object to the root.
     */
    method GetRootParent(ghost chain: seq<Attachable>) returns (root: Attachable)
      requires ParentChain(chain) && chain[0] == this
      ensures root.parent == null
      ensures root == chain[|chain| - 1]
      ensures parent == null ==> root == this
    {
      if parent == null {
        ChainEnd(chain, 0);
        return this;
      }
      var last := parent;
      ghost var k := 1;
      while true
        invariant 1 <= k < |chain| && last == chain[k]
        decreases |chain| - k
      {
        var p := last.parent;
        if p == null {
          ChainEnd(chain, k);
          return last;
        }
        last := p;
        k := k + 1;
      }
    }
  }

  /** `chain` follows parent links from its first element and ends at an object without a parent. */
  ghost predicate ParentChain(chain: seq<Attachable>)
    reads chain
  {
    |chain| > 0 && chain[|chain| - 1].parent == null &&
    forall k :: 0 <= k < |chain| - 1 ==> chain[k].parent == chain[k + 1]
  }

  /** Only the last object of a chain lacks a parent. */
  lemma ChainEnd(chain: seq<Attachable>, k: nat)
    requires ParentChain(chain) && k < |chain| && chain[k].parent == null
    ensures k == |chain| - 1
  {
    forall j | 0 <= j < |chain| - 1
      ensures chain[j].parent != null
    {
      assert chain[j].parent == chain[j + 1];
    }
  }

  /** The chain from an object is determined by the parent links: there is one root. */
  lemma {:induction false} ParentChainUnique(c: seq<Attachable>, d: seq<Attachable>)
    requires ParentChain(c) && ParentChain(d) && c[0] == d[0]
    ensures c == d
    decreases |c|
  {
    if |c| > 1 {
      assert c[0].parent == c[1];
      assert |d| > 1 && d[1] == c[1];
      ParentChainUnique(c[1..], d[1..]);
      assert c == [c[0]] + c[1..] && d == [d[0]] + d[1..];
    } else {
      ChainEnd(d, 0);
    }
  }

  /** Every link of a chain that starts at a self-attached object is that object. */
  lemma {:induction false} SelfLoopChain(a: Attachable, chain: seq<Attachable>, k: nat)
    requires |chain| > 0 && chain[0] == a && a.parent == a
    requires forall j :: 0 <= j < |chain| - 1 ==> chain[j].parent == chain[j + 1]
    requires k < |chain|
    ensures chain[k] == a
  {
    if k > 0 {
      SelfLoopChain(a, chain, k - 1);
    }
  }

  /** An object attached to itself has no chain to a root, so getRootParent never completes for it. */
  lemma SelfAttachedHasNoRoot(a: Attachable, chain: seq<Attachable>)
    requires a.parent == a
    requires |chain| > 0 && chain[0] == a
    ensures !ParentChain(chain)
  {
    if ParentChain(chain) {
      SelfLoopChain(a, chain, |chain| - 1);
    }
  }
}
