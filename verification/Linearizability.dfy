/** Linearizability as refinement of an atomic object.
    The atomic object serves each thread in three moves: the call arrives, the operation takes
    effect on the value in a single instant, and the answer fixed at that instant is returned.
    A trace of calls and returns is linearizable when effects can be inserted into it so that the
    object allows the whole history; every operation then takes effect between its own call and
    its own return, which is the usual definition. */
module Linearizability {
  import opened Wrappers

  datatype Event<Op, Res> =
    | Call(tid: nat, op: Op)
    | Effect(tid: nat, res: Res)
    | Return(tid: nat, res: Res)

  datatype Status<Op, Res> = Resting | Called(op: Op) | Answered(res: Res)

  datatype Object<Q, Op, Res> = Object(value: Q, status: seq<Status<Op, Res>>)

  /** `allows(o, t, res)`: may thread t's pending operation take effect now with answer res?
      `after(q, op, res)`: the value it leaves behind. */
  datatype Spec<!Q, !Op, !Res> = Spec(
    allows: (Object<Q, Op, Res>, nat, Res) -> bool,
    after: (Q, Op, Res) -> Q)

  function Fresh<Q, Op, Res>(q: Q, threads: nat): Object<Q, Op, Res> {
    Object(q, seq(threads, i => Resting))
  }

  function Apply<Q, Op, Res(==)>(spec: Spec<Q, Op, Res>, o: Object<Q, Op, Res>, e: Event<Op, Res>)
    : Option<Object<Q, Op, Res>>
  {
    if e.tid >= |o.status| then None
    else match e
      case Call(t, op) =>
        if o.status[t].Resting? then Some(o.(status := o.status[t := Called(op)])) else None
      case Effect(t, res) =>
        if o.status[t].Called? && spec.allows(o, t, res)
        then Some(Object(spec.after(o.value, o.status[t].op, res), o.status[t := Answered(res)]))
        else None
      case Return(t, res) =>
        if o.status[t] == Answered(res) then Some(o.(status := o.status[t := Resting])) else None
  }

  function Play<Q, Op, Res(==)>(spec: Spec<Q, Op, Res>, o: Object<Q, Op, Res>, history: seq<Event<Op, Res>>)
    : Option<Object<Q, Op, Res>>
    decreases |history|
  {
    if history == [] then Some(o)
    else
      var before := Play(spec, o, history[..|history| - 1]);
      if before.None? then None else Apply(spec, before.value, history[|history| - 1])
  }

  /** What the outside sees of a history: its calls and returns. */
  function Visible<Op, Res>(history: seq<Event<Op, Res>>): seq<Event<Op, Res>>
    decreases |history|
  {
    if history == [] then []
    else
      var before := Visible(history[..|history| - 1]);
      var last := history[|history| - 1];
      if last.Effect? then before else before + [last]
  }

  ghost predicate Explains<Q, Op, Res>(spec: Spec<Q, Op, Res>, init: Object<Q, Op, Res>,
                                           history: seq<Event<Op, Res>>, trace: seq<Event<Op, Res>>,
                                           o: Object<Q, Op, Res>) {
    Play(spec, init, history) == Some(o) && Visible(history) == trace
  }

  ghost predicate Linearizable<Q(!new), Op(!new), Res(!new)>(
    spec: Spec<Q, Op, Res>, init: Object<Q, Op, Res>, trace: seq<Event<Op, Res>>) {
    exists history, o :: Explains(spec, init, history, trace, o)
  }

  /** Histories compose. */
  lemma {:induction false} Chain<Q, Op, Res>(
    spec: Spec<Q, Op, Res>, init: Object<Q, Op, Res>, history: seq<Event<Op, Res>>,
    trace: seq<Event<Op, Res>>, o: Object<Q, Op, Res>, more: seq<Event<Op, Res>>, o': Object<Q, Op, Res>)
    requires Explains(spec, init, history, trace, o)
    requires Play(spec, o, more) == Some(o')
    ensures Explains(spec, init, history + more, trace + Visible(more), o')
    decreases |more|
  {
    if more == [] {
      assert history + more == history && trace + Visible(more) == trace;
    } else {
      var front, e := more[..|more| - 1], more[|more| - 1];
      var mid := Play(spec, o, front).value;
      Chain(spec, init, history, trace, o, front, mid);
      assert (history + more)[..|history + more| - 1] == history + front;
      assert trace + Visible(more) == if e.Effect? then trace + Visible(front) else (trace + Visible(front)) + [e];
    }
  }

  lemma PlayOne<Q, Op, Res>(spec: Spec<Q, Op, Res>, o: Object<Q, Op, Res>, e: Event<Op, Res>)
    ensures Play(spec, o, [e]) == Apply(spec, o, e)
    ensures Visible([e]) == if e.Effect? then [] else [e]
  {
    assert [e][..0] == [];
  }

  lemma PlayTwo<Q, Op, Res>(spec: Spec<Q, Op, Res>, o: Object<Q, Op, Res>, e: Event<Op, Res>, f: Event<Op, Res>)
    requires Apply(spec, o, e).Some? && e.Effect? && f.Effect?
    ensures Play(spec, o, [e, f]) == Apply(spec, Apply(spec, o, e).value, f)
    ensures Visible([e, f]) == []
  {
    PlayOne(spec, o, e);
    assert [e, f][..1] == [e];
  }
}
