/** The process-wide control word (src/control.c): one 32-bit mask that the
    main thread updates by OR and AND-NOT and every worker reads. The
    atomicity of the updates is not modelled; each call is one sequential
    read or write of the word. */
module Control {

  /** Bit values from control.h, which is not part of this model: any
      distinct single bits behave the same in everything proved here. */
  const RELAY_STOP: bv32 := 1
  const RELAY_RELOADING: bv32 := 2
  const RELAY_STOPPING: bv32 := 4

  /** The word after OR-ing in `v`: the bits of `v` are set, the others keep
      their value. */
  function SetBits(w: bv32, v: bv32): (r: bv32)
    ensures r & v == v
    ensures r & !v == w & !v
  {
    w | v
  }

  /** The word after AND-ing with the complement of `v`: the bits of `v`
      are clear, the others keep their value. */
  function UnsetBits(w: bv32, v: bv32): (r: bv32)
    ensures r & v == 0
    ensures r & !v == w & !v
  {
    w & !v
  }

  /** control_is_one_of from control.h: some of `bits` is set. */
  predicate IsOneOf(w: bv32, bits: bv32)
  {
    w & bits != 0
  }

  /** The single live control word. */
  class ControlWord {
    var control: bv32

    constructor ()
      ensures control == 0
    {
      control := 0;
    }

    method SetControlBits(v: bv32)
      modifies this
      ensures control == SetBits(old(control), v)
    {
      control := control | v;
    }

    method UnsetControlBits(v: bv32)
      modifies this
      ensures control == UnsetBits(old(control), v)
    {
      var mask := !v;
      control := control & mask;
    }

    method SetStopped()
      modifies this
      ensures control == SetBits(old(control), RELAY_STOP)
      ensures control & RELAY_STOP == RELAY_STOP
    {
      SetControlBits(RELAY_STOP);
    }

    method GetControlVal() returns (r: bv32)
      ensures r == control
    {
      r := control;
    }

    method NotStopped() returns (r: bool)
      ensures r <==> control & RELAY_STOP == 0
    {
      var v := control;
      r := v & RELAY_STOP == 0;
    }

    method IsStopped() returns (r: bool)
      ensures r <==> control & RELAY_STOP == RELAY_STOP
    {
      var v := control;
      r := v & RELAY_STOP == RELAY_STOP;
    }
  }

  /** The two readers answer opposite questions about the same bit. */
  lemma ReadersComplement(w: bv32)
    ensures (w & RELAY_STOP == 0) <==> !(w & RELAY_STOP == RELAY_STOP)
  {
  }

  /** Setting the same bits twice is setting them once; likewise clearing. */
  lemma Idempotent(w: bv32, v: bv32)
    ensures SetBits(SetBits(w, v), v) == SetBits(w, v)
    ensures UnsetBits(UnsetBits(w, v), v) == UnsetBits(w, v)
  {
  }

  /** Once stopped, setting further bits leaves the word stopped. */
  lemma StopPersists(w: bv32, v: bv32)
    requires w & RELAY_STOP == RELAY_STOP
    ensures SetBits(w, v) & RELAY_STOP == RELAY_STOP
  {
  }

  /** A sequence of control calls made by the main thread. */
  method StopThenSet(cw: ControlWord, v: bv32) returns (notStopped: bool, isStopped: bool)
    modifies cw
    ensures !notStopped && isStopped
    ensures cw.control & RELAY_STOP == RELAY_STOP
  {
    cw.SetStopped();
    cw.SetControlBits(v);
    notStopped := cw.NotStopped();
    isStopped := cw.IsStopped();
  }
}
