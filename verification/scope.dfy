/**
 The `Scope` class: a chain of frames, each a hash from symbol to value with
 a link to its parent. Closures share frames and `define`/`set!` update them
 in place, so frames live in a store and are named by id; a frame's parent
 always has a smaller id, which is what makes walking the chain terminate.
 */
module Scope {
  import opened Values

  datatype Frame = Frame(vars: map<string, Value>, parent: Option<nat>)

  /** All frames created so far, and the id the next one will get. */
  datatype Store = Store(frames: map<nat, Frame>, next: nat)

  /** Every frame id is below `next`, and every parent exists and is older
      than its child. */
  ghost predicate Valid(st: Store) {
    forall id | id in st.frames ::
      && id < st.next
      && (st.frames[id].parent.Some? ==>
            st.frames[id].parent.value < id && st.frames[id].parent.value in st.frames)
  }

  /** The frames searched from `id`, innermost first, ending at the root. */
  ghost function Chain(st: Store, id: nat): (ch: seq<nat>)
    requires Valid(st) && id in st.frames
    ensures |ch| > 0 && ch[0] == id
    ensures forall k :: 0 <= k < |ch| ==> ch[k] in st.frames && ch[k] <= id
    decreases id
  {
    match st.frames[id].parent
    case None => [id]
    case Some(p) => [id] + Chain(st, p)
  }

  /** `Scope#include?`: the frame or one of its ancestors binds `x`. */
  predicate Includes(st: Store, id: nat, x: string)
    requires Valid(st) && id in st.frames
    decreases id
  {
    var f := st.frames[id];
    x in f.vars || (f.parent.Some? && Includes(st, f.parent.value, x))
  }

  /** `Scope#[]`: the innermost binding of `x`, or nil when there is none. */
  function Get(st: Store, id: nat, x: string): (r: Value)
    requires Valid(st) && id in st.frames
    ensures x in st.frames[id].vars ==> r == st.frames[id].vars[x]
    ensures !Includes(st, id, x) ==> r == Nil
    decreases id
  {
    var f := st.frames[id];
    if x in f.vars then f.vars[x]
    else match f.parent
      case None => Nil
      case Some(p) => Get(st, p, x)
  }

  /** `Scope#[]=`: bind `x` to `v` in frame `id` itself, whatever its
      ancestors hold. */
  function Assign(st: Store, id: nat, x: string, v: Value): (r: Store)
    requires id in st.frames
    ensures r.next == st.next && r.frames.Keys == st.frames.Keys
    ensures forall j | j in st.frames && j != id :: r.frames[j] == st.frames[j]
    ensures r.frames[id].parent == st.frames[id].parent
    ensures x in r.frames[id].vars && r.frames[id].vars[x] == v
    ensures forall y | y != x :: (y in r.frames[id].vars <==> y in st.frames[id].vars)
    ensures forall y | y != x && y in st.frames[id].vars :: r.frames[id].vars[y] == st.frames[id].vars[y]
    ensures Valid(st) ==> Valid(r)
  {
    var f := st.frames[id];
    st.(frames := st.frames[id := f.(vars := f.vars[x := v])])
  }

  /** `Scope.new(parent)`: a fresh frame with no bindings. */
  function NewScope(st: Store, parent: Option<nat>): (r: (Store, nat))
    requires Valid(st) && (parent.Some? ==> parent.value in st.frames)
    ensures r.1 !in st.frames && r.0.frames.Keys == st.frames.Keys + {r.1}
    ensures forall j | j in st.frames :: r.0.frames[j] == st.frames[j]
    ensures r.0.frames[r.1] == Frame(map[], parent)
    ensures Valid(r.0) && st.next < r.0.next
  {
    (Store(st.frames[st.next := Frame(map[], parent)], st.next + 1), st.next)
  }

  /** `Scope#nest`: a fresh child frame of `id`. */
  function Nest(st: Store, id: nat): (r: (Store, nat))
    requires Valid(st) && id in st.frames
    ensures r.1 !in st.frames && r.1 in r.0.frames && Valid(r.0)
    ensures r.0.frames[r.1].parent == Some(id)
  {
    NewScope(st, Some(id))
  }

  /** `include?` holds exactly when some frame of the chain binds the name. */
  lemma {:induction false} IncludesIffInChain(st: Store, id: nat, x: string)
    requires Valid(st) && id in st.frames
    ensures Includes(st, id, x) <==>
      exists k :: 0 <= k < |Chain(st, id)| && x in st.frames[Chain(st, id)[k]].vars
    decreases id
  {
    var ch := Chain(st, id);
    var f := st.frames[id];
    if x in f.vars {
      assert Includes(st, id, x);
      assert 0 < |Chain(st, id)| && x in st.frames[Chain(st, id)[0]].vars;
    } else if f.parent.Some? {
      var p := f.parent.value;
      IncludesIffInChain(st, p, x);
      assert ch[1..] == Chain(st, p);
      if Includes(st, p, x) {
        var k :| 0 <= k < |Chain(st, p)| && x in st.frames[Chain(st, p)[k]].vars;
        assert ch[k + 1] == Chain(st, p)[k];
        assert 0 <= k + 1 < |Chain(st, id)| && x in st.frames[Chain(st, id)[k + 1]].vars;
      }
      if exists k :: 0 <= k < |ch| && x in st.frames[ch[k]].vars {
        var k :| 0 <= k < |ch| && x in st.frames[ch[k]].vars;
        assert k > 0;
        assert Chain(st, p)[k - 1] == ch[k];
        assert 0 <= k - 1 < |Chain(st, p)| && x in st.frames[Chain(st, p)[k - 1]].vars;
        assert Includes(st, p, x);
      }
    } else {
      assert ch == [id];
    }
  }

  /** Lookup returns the binding of the first frame in the chain that binds
      the name, and nil when no frame does. */
  lemma {:induction false} GetInnermost(st: Store, id: nat, x: string, k: nat)
    requires Valid(st) && id in st.frames
    requires k < |Chain(st, id)| && x in st.frames[Chain(st, id)[k]].vars
    requires forall m :: 0 <= m < k ==> x !in st.frames[Chain(st, id)[m]].vars
    ensures Get(st, id, x) == st.frames[Chain(st, id)[k]].vars[x]
    decreases id
  {
    if k > 0 {
      var p := st.frames[id].parent.value;
      assert Chain(st, id)[1..] == Chain(st, p);
      forall m | 0 <= m < k - 1
        ensures x !in st.frames[Chain(st, p)[m]].vars
      {
        assert Chain(st, p)[m] == Chain(st, id)[m + 1];
      }
      GetInnermost(st, p, x, k - 1);
    }
  }

  /** Lookups from frame `p` depend only on the frames no younger than `p`. */
  lemma {:induction false} LookupAgrees(st: Store, st': Store, p: nat)
    requires Valid(st) && Valid(st') && p in st.frames
    requires forall j | j in st.frames && j <= p :: j in st'.frames && st'.frames[j] == st.frames[j]
    ensures p in st'.frames
    ensures forall x :: Includes(st', p, x) == Includes(st, p, x) && Get(st', p, x) == Get(st, p, x)
    decreases p
  {
    var f := st.frames[p];
    if f.parent.Some? {
      LookupAgrees(st, st', f.parent.value);
    }
    forall x
      ensures Includes(st', p, x) == Includes(st, p, x) && Get(st', p, x) == Get(st, p, x)
    {
    }
  }

  /** A freshly nested scope sees exactly its parent's bindings. */
  lemma NestSeesParent(st: Store, id: nat)
    requires Valid(st) && id in st.frames
    ensures var (st', c) := Nest(st, id);
      forall x :: Includes(st', c, x) == Includes(st, id, x) && Get(st', c, x) == Get(st, id, x)
  {
    var (st', c) := Nest(st, id);
    LookupAgrees(st, st', id);
  }

  /** Assignment writes only the innermost frame: the name is then bound
      there, other names read as before, and every older frame, ancestors
      included, sees no change at all. */
  lemma AssignInnermost(st: Store, id: nat, x: string, v: Value)
    requires Valid(st) && id in st.frames
    ensures var st' := Assign(st, id, x, v);
      && Includes(st', id, x) && Get(st', id, x) == v
      && (forall y | y != x :: Includes(st', id, y) == Includes(st, id, y) && Get(st', id, y) == Get(st, id, y))
      && (forall p | p in st.frames && p < id ::
            forall y :: Includes(st', p, y) == Includes(st, p, y) && Get(st', p, y) == Get(st, p, y))
  {
    var st' := Assign(st, id, x, v);
    forall p | p in st.frames && p < id
      ensures forall y :: Includes(st', p, y) == Includes(st, p, y) && Get(st', p, y) == Get(st, p, y)
    {
      LookupAgrees(st, st', p);
    }
    var f := st.frames[id];
    if f.parent.Some? {
      LookupAgrees(st, st', f.parent.value);
    }
    forall y | y != x
      ensures Includes(st', id, y) == Includes(st, id, y) && Get(st', id, y) == Get(st, id, y)
    {
    }
  }
}
