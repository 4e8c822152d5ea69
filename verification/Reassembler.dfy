/** The growing reassembly buffer of the worker loop. */
module Reassembler {
  import opened Bytes
  import opened Frames
  import opened Events
  import opened Reassembly

  class Reassembler {
    var frag: array<byte>   // its length is frag_cap
    var fragLen: nat
    var fragText: bool

    ghost predicate Valid()
      reads this
    {
      fragLen <= frag.Length
    }

    ghost function View(): Frag
      reads this, frag
      requires Valid()
    {
      Frag(frag[..fragLen], fragText)
    }

    constructor ()
      ensures Valid() && fresh(frag) && View() == Frag([], false)
    {
      frag := new byte[0];
      fragLen, fragText := 0, false;
    }

    /** realloc(frag, newLen + 4096) when newLen does not fit: everything kept so far stays. */
    method Grow(newLen: nat)
      requires Valid() && fragLen <= newLen
      modifies this`frag
      ensures Valid() && View() == old(View()) && newLen <= frag.Length
      ensures frag == old(frag) || fresh(frag)
    {
      if newLen > frag.Length {
        var tmp := new byte[newLen + 4096];
        Memcpy(tmp, 0, frag, 0, frag.Length);
        assert tmp[..fragLen] == frag[..fragLen];
        frag := tmp;
      }
    }

    /** A data frame is added to the message: a text or binary frame starts a new one. */
    method Append(f: Frame)
      requires Valid() && IsData(f)
      modifies this, frag
      ensures Valid() && View() == Appended(old(View()), f)
      ensures frag == old(frag) || fresh(frag)
    {
      if f.opcode != OP_CONTINUATION {
        fragText := f.opcode == OP_TEXT;
        fragLen := 0;
      }
      ghost var kept := frag[..fragLen];
      var newLen := fragLen + |f.payload|;
      Grow(newLen);
      forall i | 0 <= i < |f.payload| { frag[fragLen + i] := f.payload[i]; }
      assert frag[..newLen] == kept + f.payload;
      fragLen := newLen;
    }

    /** The finished message as an event; the buffer is reused from its start. */
    method Finish() returns (e: Event)
      requires Valid()
      modifies this`fragLen
      ensures Valid() && View() == Frag([], old(View()).isText)
      ensures e == MessageEvent(old(View()).bytes, old(View()).isText)
    {
      var len := CastToInt(fragLen);
      e := Message(if len > 0 then frag[..len] else [], len, fragText);
      assert len > 0 ==> frag[..fragLen][..len] == frag[..len];
      fragLen := 0;
    }

    /** Any frame: data is added, a final data frame completes a message, everything else passes by. */
    method Take(f: Frame) returns (e: Option<Event>)
      requires Valid()
      modifies this, frag
      ensures Valid() && View() == After(old(View()), f)
      ensures Produced(old(View()), f) == if e.Some? then [e.value] else []
      ensures frag == old(frag) || fresh(frag)
    {
      e := None;
      if IsData(f) {
        Append(f);
        if f.fin {
          var m := Finish();
          e := Some(m);
        }
      }
    }
  }
}
