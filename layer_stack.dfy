/**
 * `LayerStack`: layers pushed and popped in place, lifecycle calls made on them, and input
 * events dispatched in push order to focused layers until one of them handles the event.
 *
 * A layer is an opaque identity. What a layer does inside its own handlers is not part of
 * this model: `focused(l)` stands for `l->isFocus()` at dispatch time and `handles(l)` for
 * whether its handler leaves the event marked handled.
 */
module LayerStack {

  type LayerId = nat

  /** The calls the stack makes on its layers, in the order it makes them. */
  datatype Call = BindHandlers(layer: LayerId) | Attach(layer: LayerId) | Detach(layer: LayerId)

  /** The outcome of one dispatch: the layers whose handler ran, in order, and the final handled flag. */
  datatype Delivery = Delivery(receivers: seq<LayerId>, handled: bool)

  /** The dispatch loop over a prefix of the stack, starting from the event's incoming handled flag. */
  function Deliver(layers: seq<LayerId>, focused: LayerId -> bool, handles: LayerId -> bool, handled: bool): (r: Delivery)
    ensures |r.receivers| <= |layers|
    ensures handled ==> r == Delivery([], true)
    ensures !handled && r.handled ==> |r.receivers| > 0
  {
    if layers == [] then Delivery([], handled)
    else
      var d := Deliver(layers[..|layers| - 1], focused, handles, handled);
      var l := layers[|layers| - 1];
      if focused(l) && !d.handled then Delivery(d.receivers + [l], handles(l)) else d
  }

  /** The focused layers, in push order. */
  function Focused(layers: seq<LayerId>, focused: LayerId -> bool): (r: seq<LayerId>)
    ensures forall l :: l in r <==> l in layers && focused(l)
  {
    if layers == [] then []
    else
      var l := layers[|layers| - 1];
      assert forall x :: x in layers <==> x in layers[..|layers| - 1] || x == l;
      Focused(layers[..|layers| - 1], focused) + (if focused(l) then [l] else [])
  }

  /**
   * Only focused layers of the stack receive the event; every receiver but the last left it
   * unhandled; the result is handled exactly when it came in handled or the last receiver
   * handled it; and an event that comes in handled reaches nobody.
   */
  lemma {:induction false} DeliverStops(layers: seq<LayerId>, focused: LayerId -> bool, handles: LayerId -> bool, handled: bool)
    ensures var d := Deliver(layers, focused, handles, handled);
      && (forall l :: l in d.receivers ==> l in layers && focused(l))
      && (forall i :: 0 <= i < |d.receivers| - 1 ==> !handles(d.receivers[i]))
      && (d.handled <==> handled || (|d.receivers| > 0 && handles(d.receivers[|d.receivers| - 1])))
      && (handled ==> d.receivers == [])
  {
    if layers != [] {
      var prefix := layers[..|layers| - 1];
      DeliverStops(prefix, focused, handles, handled);
      assert forall l :: l in prefix ==> l in layers;
    }
  }

  /** When no focused layer handles the event, every focused layer receives it, in push order. */
  lemma {:induction false} UnhandledReachesAllFocused(layers: seq<LayerId>, focused: LayerId -> bool, handles: LayerId -> bool)
    requires forall l :: l in layers && focused(l) ==> !handles(l)
    ensures Deliver(layers, focused, handles, false) == Delivery(Focused(layers, focused), false)
  {
    if layers != [] {
      var prefix := layers[..|layers| - 1];
      assert forall l :: l in prefix ==> l in layers;
      UnhandledReachesAllFocused(prefix, focused, handles);
    }
  }

  /** The stack as a value: its layers and the calls made on them so far. */
  datatype StackState = StackState(layers: seq<LayerId>, calls: seq<Call>)

  /** `Push`: append the layer, then bind its handlers, then attach it. */
  function PushSpec(s: StackState, l: LayerId): (r: StackState)
    ensures |r.layers| == |s.layers| + 1 && r.layers[|s.layers|] == l && r.layers[..|s.layers|] == s.layers
    ensures |r.calls| == |s.calls| + 2 && r.calls[..|s.calls|] == s.calls
  {
    StackState(s.layers + [l], s.calls + [BindHandlers(l), Attach(l)])
  }

  /** `Pop`: nothing on an empty stack, else detach the top layer and remove it alone. */
  function PopSpec(s: StackState): (r: StackState)
    ensures s.layers == [] ==> r == s
    ensures s.layers != [] ==> r.layers + [s.layers[|s.layers| - 1]] == s.layers
    ensures s.calls <= r.calls
  {
    if s.layers == [] then s
    else StackState(s.layers[..|s.layers| - 1], s.calls + [Detach(s.layers[|s.layers| - 1])])
  }

  /** The destructor's calls: every layer detached, bottom to top. */
  function Teardown(layers: seq<LayerId>): (r: seq<Call>)
    ensures |r| == |layers| && forall i :: 0 <= i < |r| ==> r[i] == Detach(layers[i])
  {
    if layers == [] then [] else Teardown(layers[..|layers| - 1]) + [Detach(layers[|layers| - 1])]
  }

  /** Popping right after a push gives the stack back, with the layer bound, attached and detached. */
  lemma {:induction false} PushThenPop(s: StackState, l: LayerId)
    ensures PopSpec(PushSpec(s, l)) == StackState(s.layers, s.calls + [BindHandlers(l), Attach(l), Detach(l)])
  {
    assert (s.layers + [l])[..|s.layers|] == s.layers;
  }

  /** Popping never adds a layer: it removes the top one or, on an empty stack, changes nothing. */
  lemma {:induction false} PopShrinks(s: StackState)
    ensures var p := PopSpec(s);
      if s.layers == [] then p == s
      else |p.layers| == |s.layers| - 1 && p.layers == s.layers[..|p.layers|] && p.calls == s.calls + [Detach(s.layers[|p.layers|])]
  {
  }

  class Stack {
    var layers: seq<LayerId>
    var calls: seq<Call>

    function State(): StackState
      reads this
    {
      StackState(layers, calls)
    }

    /** The window and poller handed to every layer's `bindHandlers` are not part of this model. */
    constructor ()
      ensures layers == [] && calls == []
    {
      layers := [];
      calls := [];
    }

    method Push(l: LayerId)
      modifies this
      ensures State() == PushSpec(old(State()), l)
    {
      layers := layers + [l];
      calls := calls + [BindHandlers(l)];
      calls := calls + [Attach(l)];
    }

    method Pop()
      modifies this
      ensures State() == PopSpec(old(State()))
    {
      if layers != [] {
        calls := calls + [Detach(layers[|layers| - 1])];
        layers := layers[..|layers| - 1];
      }
    }

    /** `~LayerStack`: detach every layer, bottom to top; the layers themselves stay in the list. */
    method Destroy()
      modifies this
      ensures layers == old(layers) && calls == old(calls) + Teardown(layers)
    {
      for i := 0 to |layers|
        invariant layers == old(layers)
        invariant calls == old(calls) + Teardown(layers[..i])
      {
        assert layers[..i + 1][..i] == layers[..i];
        calls := calls + [Detach(layers[i])];
      }
      assert layers[..|layers|] == layers;
    }

    /**
     * `OnKeyPress` / `OnMousePressed` / `OnMouseMoved`: visit the layers in push order, run
     * the handler of each focused layer while the event is unhandled, and report the final flag.
     */
    method Dispatch(handled: bool, focused: LayerId -> bool, handles: LayerId -> bool) returns (r: Delivery)
      ensures r == Deliver(layers, focused, handles, handled)
    {
      r := Delivery([], handled);
      for i := 0 to |layers|
        invariant r == Deliver(layers[..i], focused, handles, handled)
      {
        assert layers[..i + 1][..i] == layers[..i];
        if focused(layers[i]) && !r.handled {
          r := Delivery(r.receivers + [layers[i]], handles(layers[i]));
        }
      }
      assert layers[..|layers|] == layers;
    }
  }
}
