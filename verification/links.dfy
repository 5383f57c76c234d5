/** Doubly linked lists threaded through an array of nodes, on values: the head, the
    next and prev fields of every node, and the sequence of nodes they stand for.
    The buddy free lists and the partial lists of slabs are both of this kind. */
module Links {

  /** The null pointer. */
  const NIL: int := -1

  function At(s: seq<nat>, i: int): int {
    if 0 <= i < |s| then s[i] else NIL
  }

  ghost predicate NoDuplicates(s: seq<nat>) {
    forall i, j :: 0 <= i < j < |s| ==> s[i] != s[j]
  }

  /** The fields of the i-th node point to its neighbours. */
  ghost predicate NodeLinked(next: seq<int>, prev: seq<int>, s: seq<nat>, i: nat)
    requires |next| == |prev| && i < |s|
  {
    s[i] < |next| && next[s[i]] == At(s, i + 1) && prev[s[i]] == At(s, i - 1)
  }

  /** The list that starts at head is exactly s, and prev is the inverse of next. */
  ghost predicate Linked(head: int, next: seq<int>, prev: seq<int>, s: seq<nat>) {
    && |next| == |prev|
    && head == At(s, 0)
    && (forall i :: 0 <= i < |s| ==> NodeLinked(next, prev, s, i))
    && NoDuplicates(s)
  }

  ghost function Without(s: seq<nat>, b: nat): seq<nat> {
    if s == [] then []
    else if s[0] == b then s[1..]
    else [s[0]] + Without(s[1..], b)
  }

  lemma {:induction false} WithoutIsCut(s: seq<nat>, i: nat)
    requires i < |s| && NoDuplicates(s)
    ensures Without(s, s[i]) == s[..i] + s[i + 1..]
  {
    if i > 0 {
      var t := s[1..];
      assert t[i - 1] == s[i] && s[0] != s[i];
      WithoutIsCut(t, i - 1);
      calc {
        Without(s, s[i]);
        [s[0]] + (t[..i - 1] + t[i..]);
        { assert t[i..] == s[i + 1..]; }
        [s[0]] + t[..i - 1] + s[i + 1..];
        { assert [s[0]] + t[..i - 1] == s[..i]; }
        s[..i] + s[i + 1..];
      }
    }
  }

  lemma WithoutMembers(s: seq<nat>, b: nat)
    requires NoDuplicates(s)
    ensures NoDuplicates(Without(s, b))
    ensures forall x :: x in Without(s, b) <==> x in s && x != b
  {
    if b in s {
      var i :| 0 <= i < |s| && s[i] == b;
      WithoutIsCut(s, i);
    } else {
      WithoutAbsent(s, b);
    }
  }

  lemma {:induction false} WithoutAbsent(s: seq<nat>, b: nat)
    requires b !in s
    ensures Without(s, b) == s
  {
    if s != [] {
      WithoutAbsent(s[1..], b);
    }
  }

  lemma MemberLinked(head: int, next: seq<int>, prev: seq<int>, s: seq<nat>, b: nat)
    returns (i: nat)
    requires Linked(head, next, prev, s) && b in s
    ensures i < |s| && s[i] == b && NodeLinked(next, prev, s, i)
  {
    i :| 0 <= i < |s| && s[i] == b;
    assert NodeLinked(next, prev, s, i);
  }

  /** Nodes outside the list may be relinked freely. */
  lemma LinkedFrame(head: int, next: seq<int>, prev: seq<int>,
                    next': seq<int>, prev': seq<int>, s: seq<nat>)
    requires Linked(head, next, prev, s)
    requires |next'| == |prev'| == |next|
    requires forall x :: x in s && x < |next| ==> next'[x] == next[x] && prev'[x] == prev[x]
    ensures Linked(head, next', prev', s)
  {
    forall i | 0 <= i < |s|
      ensures NodeLinked(next', prev', s, i)
    {
      assert NodeLinked(next, prev, s, i) && s[i] in s;
    }
  }

  lemma PushFront(head: int, next: seq<int>, prev: seq<int>, s: seq<nat>, b: nat)
    requires Linked(head, next, prev, s) && b < |next| && b !in s
    requires head != NIL ==> 0 <= head < |prev|
    ensures Linked(b, next[b := head], if head == NIL then prev[b := NIL] else prev[b := NIL][head := b], [b] + s)
  {
    var t := [b] + s;
    var next', prev' := next[b := head], if head == NIL then prev[b := NIL] else prev[b := NIL][head := b];
    forall i | 0 <= i < |t|
      ensures NodeLinked(next', prev', t, i)
    {
      if i > 0 {
        assert NodeLinked(next, prev, s, i - 1);
        assert t[i] == s[i - 1] && s[i - 1] != b;
      }
    }
  }

  /** A head is a node. */
  lemma HeadInBounds(head: int, next: seq<int>, prev: seq<int>, s: seq<nat>)
    requires Linked(head, next, prev, s)
    ensures s == [] ==> head == NIL
    ensures s != [] ==> 0 <= head < |next| && head == s[0] && prev[head] == NIL
  {
    if s != [] {
      assert NodeLinked(next, prev, s, 0);
    }
  }

  lemma Unlink(head: int, next: seq<int>, prev: seq<int>, s: seq<nat>, b: nat)
    requires Linked(head, next, prev, s) && b in s
    ensures b < |next|
    ensures prev[b] != NIL ==> 0 <= prev[b] < |next| && prev[b] in s
    ensures next[b] != NIL ==> 0 <= next[b] < |next| && next[b] in s
    ensures Linked(if prev[b] == NIL then next[b] else head,
                   if prev[b] == NIL then next else next[prev[b] := next[b]],
                   if next[b] == NIL then prev else prev[next[b] := prev[b]],
                   Without(s, b))
  {
    var i := MemberLinked(head, next, prev, s, b);
    WithoutIsCut(s, i);
    WithoutMembers(s, b);
    if i > 0 {
      assert NodeLinked(next, prev, s, i - 1);
    }
    if i + 1 < |s| {
      assert NodeLinked(next, prev, s, i + 1);
    }
    var t := Without(s, b);
    var next' := if prev[b] == NIL then next else next[prev[b] := next[b]];
    var prev' := if next[b] == NIL then prev else prev[next[b] := prev[b]];
    forall j | 0 <= j < |t|
      ensures NodeLinked(next', prev', t, j)
    {
      if j < i {
        NodeBeforeCut(next, prev, s, i, j);
      } else {
        NodeAfterCut(next, prev, s, i, j);
      }
    }
  }

  lemma NodeBeforeCut(next: seq<int>, prev: seq<int>, s: seq<nat>, i: nat, j: nat)
    requires |next| == |prev| && NoDuplicates(s) && j < i < |s|
    requires NodeLinked(next, prev, s, i) && NodeLinked(next, prev, s, i - 1)
    requires NodeLinked(next, prev, s, j)
    requires i + 1 < |s| ==> NodeLinked(next, prev, s, i + 1)
    ensures NodeLinked(next[s[i - 1] := next[s[i]]],
                       if next[s[i]] == NIL then prev else prev[next[s[i]] := prev[s[i]]],
                       s[..i] + s[i + 1..], j)
  {
    var t := s[..i] + s[i + 1..];
    assert t[j] == s[j];
    assert j > 0 ==> t[j - 1] == s[j - 1];
    assert j < i - 1 ==> t[j + 1] == s[j + 1];
    assert j == i - 1 && j + 1 < |t| ==> t[j + 1] == s[j + 2];
  }

  lemma NodeAfterCut(next: seq<int>, prev: seq<int>, s: seq<nat>, i: nat, j: nat)
    requires |next| == |prev| && NoDuplicates(s) && i <= j < |s| - 1
    requires NodeLinked(next, prev, s, i) && NodeLinked(next, prev, s, j + 1)
    requires NodeLinked(next, prev, s, i + 1)
    requires i > 0 ==> NodeLinked(next, prev, s, i - 1)
    ensures NodeLinked(if prev[s[i]] == NIL then next else next[prev[s[i]] := next[s[i]]],
                       prev[s[i + 1] := prev[s[i]]],
                       s[..i] + s[i + 1..], j)
  {
    var t := s[..i] + s[i + 1..];
    assert t[j] == s[j + 1];
    assert j + 1 < |t| ==> t[j + 1] == s[j + 2];
    assert j > i ==> t[j - 1] == s[j];
    assert j == i && i > 0 ==> t[j - 1] == s[i - 1];
  }
}
