/** The LIFO stack of src/data_structure.rs: a vector whose end is the top,
    and an optional name that only the trace messages use. */
module Stacks {
  import opened Wrappers

  class Stack<T> {
    var elements: seq<T>
    var name: Option<string>

    /** `new`: an empty, unnamed stack. */
    constructor New()
      ensures elements == [] && name == None
    {
      elements := [];
      name := None;
    }

    /** `with_name`: an empty stack that records its name. */
    constructor WithName(n: string)
      ensures elements == [] && name == Some(n)
    {
      elements := [];
      name := Some(n);
    }

    /** `push`: the element goes on top; nothing below it and not the name
        changes. */
    method Push(x: T)
      modifies this
      ensures elements == old(elements) + [x]
      ensures |elements| == |old(elements)| + 1
      ensures name == old(name)
    {
      elements := elements + [x];
    }

    /** `pop`: None on an empty stack, which stays empty; otherwise the top
        element, which is removed. The name never changes. */
    method Pop() returns (r: Option<T>)
      modifies this
      ensures old(elements) == [] ==> r == None && elements == []
      ensures old(elements) != [] ==>
        && r == Some(old(elements)[|old(elements)| - 1])
        && elements == old(elements)[..|old(elements)| - 1]
      ensures r.Some? ==> old(elements) == elements + [r.value]
      ensures name == old(name)
    {
      if |elements| == 0 {
        r := None;
      } else {
        r := Some(elements[|elements| - 1]);
        elements := elements[..|elements| - 1];
      }
    }
  }

  /** A push followed by a pop hands back the pushed element and leaves the
      stack as it was. */
  method PushThenPop<T>(s: Stack<T>, x: T) returns (r: Option<T>)
    modifies s
    ensures r == Some(x)
    ensures s.elements == old(s.elements) && s.name == old(s.name)
  {
    s.Push(x);
    r := s.Pop();
  }

  /** Popping a fresh stack of either kind gives None. */
  method PopFresh<T>(n: Option<string>) returns (r: Option<T>)
    ensures r == None
  {
    var s: Stack<T>;
    if n.Some? {
      s := new Stack.WithName(n.value);
    } else {
      s := new Stack.New();
    }
    r := s.Pop();
  }

  /** Two pushes pop in reverse order. */
  method LastInFirstOut<T>(x: T, y: T) returns (first: Option<T>, second: Option<T>, third: Option<T>)
    ensures first == Some(y) && second == Some(x) && third == None
  {
    var s := new Stack<T>.New();
    s.Push(x);
    s.Push(y);
    first := s.Pop();
    second := s.Pop();
    third := s.Pop();
  }
}
