/**
 * A stack that keeps at most `limit` elements: pushing onto a full stack
 * drops the oldest element. The linked list of the C# code is a sequence
 * whose last element is the top.
 */
module LimitedStacks {
  import opened Wrappers

  /** The contents after pushing `x` onto `s` with the given limit. */
  function Pushed<T>(s: seq<T>, limit: int, x: T): (r: seq<T>)
    ensures |r| == if |s| + 1 > limit then |s| else |s| + 1
    ensures r == (s + [x])[|s| + 1 - |r|..]
  {
    var t := s + [x];
    if |t| > limit then t[1..] else t
  }

  /** The top of a non-empty stack: its last element. */
  function Top<T>(s: seq<T>): T
    requires |s| > 0
  {
    s[|s| - 1]
  }

  /** The bound every stack keeps: never more than the limit, and empty when the limit is not positive. */
  function Capacity(limit: int): nat {
    if limit > 0 then limit else 0
  }

  /** Pushing keeps the bound, the new element is on top, and the rest is a suffix of the old contents. */
  lemma PushedBounded<T>(s: seq<T>, limit: int, x: T)
    requires |s| <= Capacity(limit)
    ensures |Pushed(s, limit, x)| <= Capacity(limit)
    ensures |Pushed(s, limit, x)| > 0 ==> Top(Pushed(s, limit, x)) == x
    ensures limit > 0 ==> |Pushed(s, limit, x)| > 0
  {
  }

  /** Below the limit, popping what was just pushed gives it back and restores the contents. */
  lemma PushThenPop<T>(s: seq<T>, limit: int, x: T)
    requires |s| < limit
    ensures var t := Pushed(s, limit, x); |t| == |s| + 1 && t[|t| - 1] == x && t[..|t| - 1] == s
  {
    var t := Pushed(s, limit, x);
    assert t == s + [x];
  }

  class LimitedStack<T> {
    const limit: int
    var stack: seq<T>

    /** The number of stored elements never exceeds the limit. */
    predicate Valid()
      reads this
    {
      |stack| <= Capacity(limit)
    }

    function Count(): (r: nat)
      reads this
      ensures r == |stack|
    {
      |stack|
    }

    constructor (limit: int)
      ensures this.limit == limit && stack == [] && Valid()
    {
      this.limit := limit;
      stack := [];
    }

    method Clear()
      requires Valid()
      modifies this
      ensures stack == [] && Valid()
    {
      stack := [];
    }

    /** Appends to the top; when the stack then holds more than the limit, its bottom element is dropped. */
    method Push(element: T)
      requires Valid()
      modifies this
      ensures stack == Pushed(old(stack), limit, element) && Valid()
    {
      PushedBounded(stack, limit, element);
      stack := stack + [element];
      if Count() > limit {
        stack := stack[1..];
      }
    }

    /** Removes and returns the top element; the C# code dereferences a missing last node, so the stack must not be empty. */
    method Pop() returns (element: T)
      requires Valid() && |stack| > 0
      modifies this
      ensures element == old(stack)[|old(stack)| - 1]
      ensures stack == old(stack)[..|old(stack)| - 1] && Valid()
    {
      element := stack[|stack| - 1];
      stack := stack[..|stack| - 1];
    }

    /** The top element, on a non-empty stack: the element pushed last. */
    function Peek(): (r: T)
      requires |stack| > 0
      reads this
      ensures r in stack && r == Top(stack)
    {
      stack[|stack| - 1]
    }

    /** Pop that reports an empty stack instead of failing, and then changes nothing. */
    method SafePop() returns (ok: bool, element: Option<T>)
      requires Valid()
      modifies this
      ensures ok <==> old(|stack|) > 0
      ensures !ok ==> element == None && stack == old(stack)
      ensures ok ==> element == Some(old(stack)[|old(stack)| - 1]) && stack == old(stack)[..|old(stack)| - 1]
      ensures Valid()
    {
      if |stack| == 0 {
        return false, None;
      }
      var e := Pop();
      return true, Some(e);
    }

    /** Peek that reports an empty stack instead of failing. */
    method SafePeek() returns (ok: bool, element: Option<T>)
      ensures ok <==> |stack| > 0
      ensures !ok ==> element == None
      ensures ok ==> element == Some(stack[|stack| - 1])
    {
      if |stack| == 0 {
        return false, None;
      }
      return true, Some(stack[|stack| - 1]);
    }
  }
}
