/** Small wrapper types shared by every module: Java's nullable references. */
module Wrappers {
  /** A Java reference that may be null. */
  datatype Option<T> = None | Some(value: T)
  {
    predicate IsSome() { Some? }

    function GetOr(default: T): (r: T)
      ensures Some? ==> r == value
      ensures None? ==> r == default
    {
      match this
      case Some(v) => v
      case None => default
    }
  }

  /** Sequences that agree at every index are equal. */
  lemma PointwiseEqual<T>(a: seq<T>, b: seq<T>)
    requires |a| == |b| && forall i :: 0 <= i < |a| ==> a[i] == b[i]
    ensures a == b
  {
  }

  /** Where an element of a sequence with position `j` removed comes from. */
  lemma RemovedAt<T>(s: seq<T>, j: nat, i: nat)
    requires j < |s| && i < |s| - 1
    ensures (s[..j] + s[j + 1..])[i] == s[if i < j then i else i + 1]
  {
  }

  /** A prefix one longer is the prefix and the next element. */
  lemma TakeNext<T>(s: seq<T>, i: nat)
    requires i < |s|
    ensures s[..i + 1] == s[..i] + [s[i]]
  {
  }

  /** A suffix starting at `i` is the element there followed by the next suffix. */
  lemma DropNext<T>(s: seq<T>, i: nat)
    requires i < |s|
    ensures s[i..][0] == s[i] && s[i..][1..] == s[i + 1..]
  {
  }

  /** A non-empty sequence is its front and its last element. */
  lemma SplitLast<T>(s: seq<T>)
    requires s != []
    ensures s == s[..|s| - 1] + [s[|s| - 1]]
  {
  }

  /** A sequence is what lies before index `i`, the element there, and what follows. */
  lemma SplitAround<T>(s: seq<T>, i: nat)
    requires i < |s|
    ensures s == s[..i] + [s[i]] + s[i + 1..]
  {
  }

  /** Concatenation is associative. */
  lemma Associative<T>(a: seq<T>, b: seq<T>, c: seq<T>)
    ensures a + (b + c) == (a + b) + c
  {
  }

  /** The head and the tail of a concatenation whose left part is not empty. */
  lemma AppendTail<T>(a: seq<T>, b: seq<T>)
    requires a != []
    ensures (a + b)[0] == a[0] && (a + b)[1..] == a[1..] + b
  {
  }
}

/** How a Java computation in the model ends: with a value, by never
    terminating, or by throwing. */
module Outcomes {
  datatype Outcome<T> = Done(value: T) | Diverges | Throws(exception: string)
  {
    predicate Ok() { Done? }

    /** The hooks of Dafny's `:-`: anything but a value ends the caller the
        same way. */
    predicate IsFailure() { !Done? }

    function PropagateFailure<U>(): Outcome<U>
      requires IsFailure()
    {
      if Diverges? then Diverges else Throws(exception)
    }

    function Extract(): T
      requires Done?
    {
      value
    }
  }
}
