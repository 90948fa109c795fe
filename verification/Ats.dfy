/** The two readers of an answer to select: the gate a credential passes at load and the
    unpacking into the listener's fields (section 5.2 of ISO/IEC 14443-4). */
module Ats {
  import opened Bytes

  const TA1: byte := 0x10
  const TB1: byte := 0x20
  const TC1: byte := 0x40

  /** The listener's view of an answer; an interface byte that is absent is zero. */
  datatype Fields = Fields(tl: byte, t0: byte, ta1: byte, tb1: byte, tc1: byte, historical: seq<byte>)

  function Announced(t0: byte, mask: byte): nat {
    if t0 & mask != 0 then 1 else 0
  }

  /** How many interface bytes T0 announces. */
  function InterfaceBytes(t0: byte): nat {
    Announced(t0, TA1) + Announced(t0, TB1) + Announced(t0, TC1)
  }

  function Interface(t0: byte, mask: byte, value: byte): seq<byte> {
    if t0 & mask != 0 then [value] else []
  }

  /** An answer made of fields, in the order of the standard. */
  function Print(f: Fields): seq<byte> {
    [f.tl, f.t0] + Interface(f.t0, TA1, f.ta1) + Interface(f.t0, TB1, f.tb1) + Interface(f.t0, TC1, f.tc1)
    + f.historical
  }

  /** The length octet, but no more than was handed over. */
  function Declared(ats: seq<byte>): (n: nat)
    ensures n <= |ats|
  {
    if ats == [] then 0 else if ats[0] as nat > |ats| then |ats| else ats[0] as nat
  }

  /** The octet at a place within the declared length, zero beyond it. */
  function At(ats: seq<byte>, i: nat): byte {
    if i < Declared(ats) then ats[i] else 0
  }

  function InterfaceAt(ats: seq<byte>, t0: byte, mask: byte, i: nat): byte {
    if t0 & mask != 0 then At(ats, i) else 0
  }

  /** The fields of an answer, each read at the place that T0 gives it. */
  function Unpacked(ats: seq<byte>): Fields {
    if ats == [] then Fields(0, 0, 0, 0, 0, [])
    else
      var t0 := At(ats, 1);
      var end := 2 + InterfaceBytes(t0);
      Fields(ats[0], t0, InterfaceAt(ats, t0, TA1, 2), InterfaceAt(ats, t0, TB1, 2 + Announced(t0, TA1)),
             InterfaceAt(ats, t0, TC1, 2 + Announced(t0, TA1) + Announced(t0, TB1)),
             if end <= Declared(ats) then ats[end..Declared(ats)] else [])
  }

  /** The length octet is right and every announced interface byte is there. */
  predicate Complete(ats: seq<byte>) {
    |ats| >= 2 && ats[0] as nat == |ats| && 2 + InterfaceBytes(ats[1]) <= |ats|
  }

  /** The part of the listener's data that holds the answer. */
  class ListenerData {
    var tl: byte
    var t0: byte
    var ta1: byte
    var tb1: byte
    var tc1: byte
    var t1tk: seq<byte>

    ghost function View(): Fields
      reads this
    {
      Fields(tl, t0, ta1, tb1, tc1, t1tk)
    }

    /** Every octet is read within the length of the answer, whatever it says. */
    method SetAts(ats: seq<byte>)
      modifies this
      ensures View() == Unpacked(ats)
    {
      hide Announced, InterfaceAt, InterfaceBytes, Unpacked;
      ghost var n := Declared(ats);
      tl, t0, ta1, tb1, tc1, t1tk := 0, 0, 0, 0, 0, [];
      if |ats| > 0 {
        var declared := ats[0] as nat;
        if declared > |ats| {
          declared := |ats|;
        }
        tl := ats[0];
        assert declared == n;
        var i := 1;
        if i < declared {
          t0 := ats[i];
          i := i + 1;
        }
        assert t0 == At(ats, 1);
        ta1, i := Take(ats, declared, t0, TA1, i, 2);
        tb1, i := Take(ats, declared, t0, TB1, i, 2 + Announced(t0, TA1));
        tc1, i := Take(ats, declared, t0, TC1, i, 2 + Announced(t0, TA1) + Announced(t0, TB1));
        if i < declared {
          t1tk := ats[i..declared];
        }
        Assembled(ats, View(), i);
      } else {
        NoAnswer(ats);
      }
    }
  }

  lemma NoAnswer(ats: seq<byte>)
    requires ats == []
    ensures Unpacked(ats) == Fields(0, 0, 0, 0, 0, [])
  {
  }

  lemma Assembled(ats: seq<byte>, f: Fields, i: nat)
    requires ats != [] && f.tl == ats[0] && f.t0 == At(ats, 1)
    requires f.ta1 == InterfaceAt(ats, f.t0, TA1, 2)
    requires f.tb1 == InterfaceAt(ats, f.t0, TB1, 2 + Announced(f.t0, TA1))
    requires f.tc1 == InterfaceAt(ats, f.t0, TC1, 2 + Announced(f.t0, TA1) + Announced(f.t0, TB1))
    requires var end := 2 + Announced(f.t0, TA1) + Announced(f.t0, TB1) + Announced(f.t0, TC1);
             i == end || Declared(ats) <= i <= end
    requires f.historical == if i < Declared(ats) then ats[i..Declared(ats)] else []
    ensures f == Unpacked(ats)
  {
    hide Announced, InterfaceAt, At, Declared;
  }

  /** One interface byte, if T0 announces it and there is an octet left. Its place is where T0
      puts it; the index only lags behind once the declared length is used up. */
  method Take(ats: seq<byte>, declared: nat, t0: byte, mask: byte, i: nat, ghost place: nat)
    returns (value: byte, next: nat)
    requires declared == Declared(ats) && (i == place || declared <= i <= place)
    ensures value == InterfaceAt(ats, t0, mask, place)
    ensures next == place + Announced(t0, mask) || declared <= next <= place + Announced(t0, mask)
  {
    value, next := 0, i;
    if t0 & mask != 0 && i < declared {
      value, next := ats[i], i + 1;
    }
  }

  /** The gate accepts exactly what the listener can be: no answer at all, or a complete one
      whose fields say 64-byte frames, 106 kbit/s, a frame waiting time of at least 8 and no NAD. */
  method IsRadioSupported(ats: seq<byte>) returns (ok: bool)
    ensures ok == RadioSupported(ats)
  {
    if |ats| == 0 {
      return true;
    }
    if |ats| < 2 || ats[0] as nat != |ats| {
      return false;
    }
    var t0 := ats[1];
    if t0 & 0x0F != 5 {
      return false;
    }
    var offset := 2;
    if t0 & TA1 != 0 {
      if offset >= |ats| || ats[offset] != 0 {
        return false;
      }
      offset := offset + 1;
    }
    if t0 & TB1 != 0 {
      if offset >= |ats| || ats[offset] >> 4 < 8 {
        return false;
      }
      offset := offset + 1;
    } else {
      return false;
    }
    if t0 & TC1 != 0 {
      if offset >= |ats| || ats[offset] & 0x01 != 0 {
        return false;
      }
      offset := offset + 1;
    }
    return true;
  }

  predicate RadioSupported(ats: seq<byte>) {
    ats == [] || (Complete(ats) && Usable(Unpacked(ats)))
  }

  predicate Usable(f: Fields) {
    f.t0 & 0x0F == 5 && f.ta1 == 0 && f.tb1 >> 4 >= 8 && f.tc1 & 0x01 == 0
  }

  /** Every printed octet but the historical ones is the declared one at its place. */
  lemma PrintForm(ats: seq<byte>)
    requires ats != []
    ensures var out, t0 := Print(Unpacked(ats)), At(ats, 1);
            && |out| == 2 + InterfaceBytes(t0) + |Unpacked(ats).historical|
            && out[0] == ats[0] && out[2 + InterfaceBytes(t0)..] == Unpacked(ats).historical
            && forall i | 1 <= i < 2 + InterfaceBytes(t0) :: out[i] == At(ats, i)
  {
    hide At, Declared;
  }

  /** Where each field comes from: TA(1), TB(1), TC(1) follow T0 in this order, those that T0
      announces and the declared length still covers; the rest of it is historical. */
  lemma UnpackedOctets(ats: seq<byte>, n: nat, a: nat, b: nat, c: nat)
    requires ats != [] && n == if ats[0] as nat < |ats| then ats[0] as nat else |ats|
    requires var t0 := if n > 1 then ats[1] else 0;
             a == (if t0 & 0x10 != 0 then 1 else 0) && b == (if t0 & 0x20 != 0 then 1 else 0)
             && c == (if t0 & 0x40 != 0 then 1 else 0)
    ensures var f := Unpacked(ats);
            && f.tl == ats[0] && f.t0 == (if n > 1 then ats[1] else 0)
            && f.ta1 == (if a == 1 && 2 < n then ats[2] else 0)
            && f.tb1 == (if b == 1 && 2 + a < n then ats[2 + a] else 0)
            && f.tc1 == (if c == 1 && 2 + a + b < n then ats[2 + a + b] else 0)
            && f.historical == if 2 + a + b + c < n then ats[2 + a + b + c..n] else []
  {
    var t0 := if n > 1 then ats[1] else 0;
    assert Announced(t0, TA1) == a && Announced(t0, TB1) == b && Announced(t0, TC1) == c;
  }

  /** All that lies beyond the declared length is announced interface bytes that are zero. */
  predicate Described(ats: seq<byte>) {
    && |ats| >= 2 && 2 + InterfaceBytes(ats[1]) <= |ats|
    && forall i | Declared(ats) <= i < |ats| :: i < 2 + InterfaceBytes(ats[1]) && ats[i] == 0
  }

  /** Unpacking loses nothing exactly when the answer is described. */
  lemma PrintsBack(ats: seq<byte>)
    requires ats != []
    ensures Print(Unpacked(ats)) == ats <==> Described(ats)
  {
    hide Print, Announced, Interface;
    PrintForm(ats);
    var out, t0 := Print(Unpacked(ats)), At(ats, 1);
    var end := 2 + InterfaceBytes(t0);
    if out == ats {
      assert out[1] == t0;
    }
    if Described(ats) {
      assert t0 == ats[1];
      assert Declared(ats) < |ats| ==> ats[|ats| - 1] == 0;
      assert |out| == |ats|;
      forall k | 0 <= k < |ats| ensures out[k] == ats[k] {
        assert k < end || out[k] == out[end..][k - end];
      }
    }
  }

  /** The gate, octet by octet: TL counts the answer, T0 names 64-byte frames and TB(1), TA(1)
      is absent or zero, TB(1) is at least 0x80, and TC(1) is absent or even. */
  lemma GateOctets(ats: seq<byte>)
    requires ats != []
    ensures RadioSupported(ats) <==>
              |ats| >= 2 && ats[0] as nat == |ats| && ats[1] & 0x0F == 5 && ats[1] & 0x20 != 0
              && exists tb, tc, historical :: tb >= 0x80 && tc & 1 == 0 && Spelled(ats, tb, tc, historical)
  {
    hide RadioSupported;
    if RadioSupported(ats) { Accepted(ats); }
    if |ats| >= 2 && ats[0] as nat == |ats| && ats[1] & 0x0F == 5 && ats[1] & 0x20 != 0
       && exists tb, tc, historical :: tb >= 0x80 && tc & 1 == 0 && Spelled(ats, tb, tc, historical) {
      var tb, tc, historical :| tb >= 0x80 && tc & 1 == 0 && Spelled(ats, tb, tc, historical);
      Accepts(ats, tb, tc, historical);
    }
  }

  ghost predicate Spelled(ats: seq<byte>, tb: byte, tc: byte, historical: seq<byte>)
    requires |ats| >= 2
  {
    ats == [ats[0], ats[1]] + (if ats[1] & 0x10 != 0 then [0] else []) + [tb]
           + (if ats[1] & 0x40 != 0 then [tc] else []) + historical
  }

  lemma Accepted(ats: seq<byte>)
    requires ats != [] && RadioSupported(ats)
    ensures |ats| >= 2 && ats[0] as nat == |ats| && ats[1] & 0x0F == 5 && ats[1] & 0x20 != 0
    ensures exists tb, tc, historical :: tb >= 0x80 && tc & 1 == 0 && Spelled(ats, tb, tc, historical)
  {
    GateMeansRoundTrip(ats);
    var f := Unpacked(ats);
    assert f.tb1 >> 4 >= 8 ==> f.tb1 >= 0x80;
    assert Print(f) == ats;
    assert Spelled(ats, f.tb1, f.tc1, f.historical);
  }

  lemma Accepts(ats: seq<byte>, tb: byte, tc: byte, historical: seq<byte>)
    requires |ats| >= 2 && ats[0] as nat == |ats| && ats[1] & 0x0F == 5 && ats[1] & 0x20 != 0
    requires tb >= 0x80 && tc & 1 == 0 && Spelled(ats, tb, tc, historical)
    ensures RadioSupported(ats)
  {
    hide Unpacked, InterfaceBytes;
    var t0 := ats[1];
    Places(ats, tb, tc, historical);
    assert tb >> 4 >= 8;
    UsableAt(ats, if t0 & TA1 != 0 then 3 else 2);
  }

  lemma Places(ats: seq<byte>, tb: byte, tc: byte, historical: seq<byte>)
    requires |ats| >= 2 && ats[1] & 0x20 != 0 && Spelled(ats, tb, tc, historical)
    ensures var at := if ats[1] & 0x10 != 0 then 3 else 2;
            && at < |ats| && ats[at] == tb && (at == 3 ==> ats[2] == 0)
            && (ats[1] & 0x40 != 0 ==> at + 1 < |ats| && ats[at + 1] == tc)
  {
    var head := [ats[0], ats[1]] + (if ats[1] & 0x10 != 0 then [0] else []);
    assert ats[|head|] == tb;
  }

  lemma UsableAt(ats: seq<byte>, at: nat)
    requires |ats| >= 2 && ats[0] as nat == |ats| && ats[1] & 0x0F == 5 && ats[1] & TB1 != 0
    requires at == (if ats[1] & TA1 != 0 then 3 else 2) && at < |ats| && (at == 3 ==> ats[2] == 0)
    requires ats[at] >> 4 >= 8 && (ats[1] & TC1 != 0 ==> at + 1 < |ats| && ats[at + 1] & 1 == 0)
    ensures RadioSupported(ats)
  {
    var f := Unpacked(ats);
    assert Announced(ats[1], TA1) == at - 2 && Announced(ats[1], TB1) == 1;
    assert f.t0 == ats[1] && f.tb1 == ats[at];
    assert f.ta1 == 0;
    assert f.tc1 == if ats[1] & TC1 != 0 then ats[at + 1] else 0;
  }

  /** What the gate lets through reaches the listener octet for octet. */
  lemma GateMeansRoundTrip(ats: seq<byte>)
    requires ats != [] && RadioSupported(ats)
    ensures Print(Unpacked(ats)) == ats && Usable(Unpacked(ats)) && Unpacked(ats).t0 & TB1 != 0
  {
    PrintsBack(ats);
  }
}
