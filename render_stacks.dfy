/** The module-level stack of components that are currently rendering. Each
    render pushes its component on entry and pops the top on exit. */
module RenderStacks {

  /** `Array.prototype.push` of one element. */
  function Pushed<T>(s: seq<T>, x: T): (r: seq<T>)
  {
    s + [x]
  }

  /** `Array.prototype.pop`: removes the last element; an empty array stays empty. */
  function Popped<T>(s: seq<T>): (r: seq<T>)
  {
    if s == [] then [] else s[..|s| - 1]
  }

  /** One render of `component`, with the renders nested inside it, in order. */
  datatype Session<T> = Session(component: T, nested: seq<Session<T>>)

  /** The stack after a render and everything nested in it. */
  function RunSession<T>(s: seq<T>, session: Session<T>): (r: seq<T>)
    decreases session
  {
    Popped(RunNested(Pushed(s, session.component), session.nested))
  }

  /** The stack after a sequence of renders, one after another. */
  function RunNested<T>(s: seq<T>, sessions: seq<Session<T>>): (r: seq<T>)
    decreases sessions
  {
    if sessions == [] then s
    else RunNested(RunSession(s, sessions[0]), sessions[1..])
  }

  /** A render restores the stack it started from, and at its exit its own
      component is on top, so exit pops exactly the entry its enter pushed. */
  lemma {:induction false} SessionBalanced<T>(s: seq<T>, session: Session<T>)
    ensures RunNested(Pushed(s, session.component), session.nested) == Pushed(s, session.component)
    ensures RunSession(s, session) == s
    decreases session
  {
    NestedBalanced(Pushed(s, session.component), session.nested);
    assert Pushed(s, session.component)[..|s|] == s;
  }

  /** Balanced nested renders leave the stack as they found it. */
  lemma {:induction false} NestedBalanced<T>(s: seq<T>, sessions: seq<Session<T>>)
    ensures RunNested(s, sessions) == s
    decreases sessions
  {
    if sessions != [] {
      SessionBalanced(s, sessions[0]);
      NestedBalanced(s, sessions[1..]);
    }
  }

  /** The stack object the components share. */
  class RenderStack<T> {
    var items: seq<T>

    constructor ()
      ensures items == []
    {
      items := [];
    }

    method Push(x: T)
      modifies this
      ensures items == Pushed(old(items), x)
    {
      items := items + [x];
    }

    method Pop()
      modifies this
      ensures items == Popped(old(items))
    {
      if items != [] {
        items := items[..|items| - 1];
      }
    }
  }
}
