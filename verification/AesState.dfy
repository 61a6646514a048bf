/** One AES state as the source keeps it: eight slices of sixteen bits, slice b
holding bit b of the sixteen bytes, byte (row r, column c) in lane 4r + c. */
module AesState {
  import opened AesWords
  import opened AesBytes

  /** The bits of one lane, and its byte. */
  function LaneOf(s0: Word, s1: Word, s2: Word, s3: Word, s4: Word, s5: Word, s6: Word, s7: Word, k: nat): Bits {
    Bits(At(s0, k), At(s1, k), At(s2, k), At(s3, k), At(s4, k), At(s5, k), At(s6, k), At(s7, k))
  }

  function Lane(w: seq<Word>, k: nat): Byte
    requires |w| == 8
  {
    Pack(LaneOf(w[0], w[1], w[2], w[3], w[4], w[5], w[6], w[7], k))
  }

  /** A block of sixteen bytes in lane order: row r and column c at 4r + c. */
  type Block = b: seq<Byte> | |b| == 16 witness seq(16, i => Byte(0))

  /** All sixteen lanes. */
  function Lanes(w: seq<Word>): Block
    requires |w| == 8
  {
    seq(16, k requires 0 <= k < 16 => Lane(w, k))
  }

  /** Every gate acts on each lane by itself. */
  lemma GateLaws()
    ensures forall x, y, k: nat {:trigger At(Xor(x, y), k)} :: At(Xor(x, y), k) == XorBit(At(x, k), At(y, k))
    ensures forall x, y, k: nat {:trigger At(And(x, y), k)} :: At(And(x, y), k) == AndBit(At(x, k), At(y, k))
    ensures forall x, y, k: nat {:trigger At(Or(x, y), k)} :: At(Or(x, y), k) == OrBit(At(x, k), At(y, k))
    ensures forall x, k: nat {:trigger At(Not(x), k)} :: At(Not(x), k) == NotBit(At(x, k))
  {
    hide Bit, Xor, And, Or, Not;
    forall x, y, k: nat ensures At(Xor(x, y), k) == XorBit(At(x, k), At(y, k)) { Gates(x, y, k); }
    forall x, y, k: nat ensures At(And(x, y), k) == AndBit(At(x, k), At(y, k)) { Gates(x, y, k); }
    forall x, y, k: nat ensures At(Or(x, y), k) == OrBit(At(x, k), At(y, k)) { Gates(x, y, k); }
    forall x, k: nat ensures At(Not(x), k) == NotBit(At(x, k)) { Gates(x, x, k); }
  }

  /** The linear layer above the shared gates, in either direction, lane by lane. */
  method TopGates(u0: Word, u1: Word, u2: Word, u3: Word, u4: Word, u5: Word, u6: Word, u7: Word, inv: bool)
    returns (t1: Word, t2: Word, t3: Word, t4: Word, t6: Word, t8: Word, t9: Word, t10: Word,
      t13: Word, t14: Word, t15: Word, t16: Word, t17: Word, t19: Word, t20: Word, t22: Word,
      t23: Word, t24: Word, t25: Word, t26: Word, t27: Word, d: Word)
    ensures forall k: nat {:trigger At(t1, k)} ::
      Top(At(t1, k), At(t2, k), At(t3, k), At(t4, k), At(t6, k), At(t8, k),
        At(t9, k), At(t10, k), At(t13, k), At(t14, k), At(t15, k), At(t16, k),
        At(t17, k), At(t19, k), At(t20, k), At(t22, k), At(t23, k), At(t24, k),
        At(t25, k), At(t26, k), At(t27, k), At(d, k)) ==
      var x := LaneOf(u7, u6, u5, u4, u3, u2, u1, u0, k);
      if inv then InvPreprocess(x) else Preprocess(x)
  {
    hide At, Xor, And, Or, Not, XorBit, AndBit, OrBit, NotBit;
    GateLaws();
    if inv {
      t23 := Xor(u0, u3);
      t22 := Not(Xor(u1, u3));
      t2 := Not(Xor(u0, u1));
      t1 := Xor(u3, u4);
      t24 := Not(Xor(u4, u7));
      var r5 := Xor(u6, u7);
      t8 := Not(Xor(u1, t23));
      t19 := Xor(t22, r5);
      t9 := Not(Xor(u7, t1));
      t10 := Xor(t2, t24);
      t13 := Xor(t2, r5);
      t3 := Xor(t1, r5);
      t25 := Not(Xor(u2, t1));
      var r13 := Xor(u1, u6);
      t17 := Not(Xor(u2, t19));
      t20 := Xor(t24, r13);
      t4 := Xor(u4, t8);
      var r17 := Not(Xor(u2, u5));
      var r18 := Not(Xor(u5, u6));
      var r19 := Not(Xor(u2, u4));
      d := Xor(u0, r17);
      t6 := Xor(t22, r17);
      t16 := Xor(r13, r19);
      t27 := Xor(t1, r18);
      t15 := Xor(t10, t27);
      t14 := Xor(t10, r18);
      t26 := Xor(t3, t16);
    } else {
      t1 := Xor(u0, u3);
      t2 := Xor(u0, u5);
      t3 := Xor(u0, u6);
      t4 := Xor(u3, u5);
      var t5 := Xor(u4, u6);
      t6 := Xor(t1, t5);
      var t7 := Xor(u1, u2);
      t8 := Xor(u7, t6);
      t9 := Xor(u7, t7);
      t10 := Xor(t6, t7);
      var t11 := Xor(u1, u5);
      var t12 := Xor(u2, u5);
      t13 := Xor(t3, t4);
      t14 := Xor(t6, t11);
      t15 := Xor(t5, t11);
      t16 := Xor(t5, t12);
      t17 := Xor(t9, t16);
      var t18 := Xor(u3, u7);
      t19 := Xor(t7, t18);
      t20 := Xor(t1, t19);
      var t21 := Xor(u6, u7);
      t22 := Xor(t7, t21);
      t23 := Xor(t2, t22);
      t24 := Xor(t2, t10);
      t25 := Xor(t20, t17);
      t26 := Xor(t3, t16);
      t27 := Xor(t1, t12);
      d := u7;
    }
  }

  /** The nonlinear gates, shared by both directions. */
  method MiddleGates(t1: Word, t2: Word, t3: Word, t4: Word, t6: Word, t8: Word, t9: Word, t10: Word,
      t13: Word, t14: Word, t15: Word, t16: Word, t17: Word, t19: Word, t20: Word, t22: Word,
      t23: Word, t24: Word, t25: Word, t26: Word, t27: Word, d: Word)
    returns (m46: Word, m47: Word, m48: Word, m49: Word, m50: Word, m51: Word, m52: Word, m53: Word,
      m54: Word, m55: Word, m56: Word, m57: Word, m58: Word, m59: Word, m60: Word, m61: Word,
      m62: Word, m63: Word)
    ensures forall k: nat {:trigger At(m46, k)} ::
      Products(At(m46, k), At(m47, k), At(m48, k), At(m49, k), At(m50, k), At(m51, k),
        At(m52, k), At(m53, k), At(m54, k), At(m55, k), At(m56, k), At(m57, k),
        At(m58, k), At(m59, k), At(m60, k), At(m61, k), At(m62, k), At(m63, k)) ==
      Invert(Top(At(t1, k), At(t2, k), At(t3, k), At(t4, k), At(t6, k), At(t8, k),
        At(t9, k), At(t10, k), At(t13, k), At(t14, k), At(t15, k), At(t16, k),
        At(t17, k), At(t19, k), At(t20, k), At(t22, k), At(t23, k), At(t24, k),
        At(t25, k), At(t26, k), At(t27, k), At(d, k)))
  {
    hide At, Xor, And, Or, Not, XorBit, AndBit, OrBit, NotBit;
    GateLaws();
    var m1 := And(t13, t6);
    var m6 := And(t3, t16);
    var m11 := And(t1, t15);
    var m13 := Xor(And(t4, t27), m11);
    var m15 := Xor(And(t2, t10), m11);
    var m20 := Xor(Xor(Xor(t14, m1), And(t23, t8)), m13);
    var m21 := Xor(Xor(Xor(And(t19, d), m1), t24), m15);
    var m22 := Xor(Xor(Xor(t26, m6), And(t22, t9)), m13);
    var m23 := Xor(Xor(Xor(And(t20, t17), m6), m15), t25);
    var m25 := And(m22, m20);
    var m37 := Xor(m21, And(Xor(m20, m21), Xor(m23, m25)));
    var m38 := Xor(Xor(m20, m25), Or(m21, And(m20, m23)));
    var m39 := Xor(m23, And(Xor(m22, m23), Xor(m21, m25)));
    var m40 := Xor(Xor(m22, m25), Or(m23, And(m21, m22)));
    var m41 := Xor(m38, m40);
    var m42 := Xor(m37, m39);
    var m43 := Xor(m37, m38);
    var m44 := Xor(m39, m40);
    var m45 := Xor(m42, m41);
    m46 := And(m44, t6);
    m47 := And(m40, t8);
    m48 := And(m39, d);
    m49 := And(m43, t16);
    m50 := And(m38, t9);
    m51 := And(m37, t17);
    m52 := And(m42, t15);
    m53 := And(m45, t27);
    m54 := And(m41, t10);
    m55 := And(m44, t13);
    m56 := And(m40, t23);
    m57 := And(m39, t19);
    m58 := And(m43, t3);
    m59 := And(m38, t22);
    m60 := And(m37, t20);
    m61 := And(m42, t1);
    m62 := And(m45, t4);
    m63 := And(m41, t2);
  }

  /** The linear layer below, in either direction. */
  method BottomGates(m46: Word, m47: Word, m48: Word, m49: Word, m50: Word, m51: Word, m52: Word, m53: Word,
      m54: Word, m55: Word, m56: Word, m57: Word, m58: Word, m59: Word, m60: Word, m61: Word,
      m62: Word, m63: Word, inv: bool)
    returns (o0: Word, o1: Word, o2: Word, o3: Word, o4: Word, o5: Word, o6: Word, o7: Word)
    ensures forall k: nat {:trigger At(o0, k)} ::
      LaneOf(o0, o1, o2, o3, o4, o5, o6, o7, k) ==
      var m := Products(At(m46, k), At(m47, k), At(m48, k), At(m49, k), At(m50, k), At(m51, k),
        At(m52, k), At(m53, k), At(m54, k), At(m55, k), At(m56, k), At(m57, k),
        At(m58, k), At(m59, k), At(m60, k), At(m61, k), At(m62, k), At(m63, k));
      if inv then InvPostprocess(m) else Postprocess(m)
  {
    hide At, Xor, And, Or, Not, XorBit, AndBit, OrBit, NotBit;
    GateLaws();
    if inv {
      var p0 := Xor(m52, m61);
      var p1 := Xor(m58, m59);
      var p2 := Xor(m54, m62);
      var p3 := Xor(m47, m50);
      var p4 := Xor(m48, m56);
      var p5 := Xor(m46, m51);
      var p6 := Xor(m49, m60);
      var p7 := Xor(p0, p1);
      var p8 := Xor(m50, m53);
      var p9 := Xor(m55, m63);
      var p10 := Xor(m57, p4);
      var p11 := Xor(p0, p3);
      var p12 := Xor(m46, m48);
      var p13 := Xor(m49, m51);
      var p14 := Xor(m49, m62);
      var p15 := Xor(m54, m59);
      var p16 := Xor(m57, m61);
      var p17 := Xor(m58, p2);
      var p18 := Xor(m63, p5);
      var p19 := Xor(p2, p3);
      var p20 := Xor(p4, p6);
      var p22 := Xor(p2, p7);
      var p23 := Xor(p7, p8);
      var p24 := Xor(p5, p7);
      var p25 := Xor(p6, p10);
      var p26 := Xor(p9, p11);
      var p27 := Xor(p10, p18);
      var p28 := Xor(p11, p25);
      var p29 := Xor(p15, p20);
      o7 := Xor(p13, p22);
      o6 := Xor(p26, p29);
      o5 := Xor(p17, p28);
      o4 := Xor(p12, p22);
      o3 := Xor(p23, p27);
      o2 := Xor(p19, p24);
      o1 := Xor(p14, p23);
      o0 := Xor(p9, p16);
    } else {
      var l0 := Xor(m61, m62);
      var l1 := Xor(m50, m56);
      var l2 := Xor(m46, m48);
      var l3 := Xor(m47, m55);
      var l4 := Xor(m54, m58);
      var l5 := Xor(m49, m61);
      var l6 := Xor(m62, l5);
      var l7 := Xor(m46, l3);
      var l8 := Xor(m51, m59);
      var l9 := Xor(m52, m53);
      var l10 := Xor(m53, l4);
      var l11 := Xor(m60, l2);
      var l12 := Xor(m48, m51);
      var l13 := Xor(m50, l0);
      var l14 := Xor(m52, m61);
      var l15 := Xor(m55, l1);
      var l16 := Xor(m56, l0);
      var l17 := Xor(m57, l1);
      var l18 := Xor(m58, l8);
      var l19 := Xor(m63, l4);
      var l20 := Xor(l0, l1);
      var l21 := Xor(l1, l7);
      var l22 := Xor(l3, l12);
      var l23 := Xor(l18, l2);
      var l24 := Xor(l15, l9);
      var l25 := Xor(l6, l10);
      var l26 := Xor(l7, l9);
      var l27 := Xor(l8, l10);
      var l28 := Xor(l11, l14);
      var l29 := Xor(l11, l17);
      o7 := Xor(l6, l24);
      o6 := Not(Xor(l16, l26));
      o5 := Not(Xor(l19, l28));
      o4 := Xor(l6, l21);
      o3 := Xor(l20, l22);
      o2 := Xor(l25, l29);
      o1 := Not(Xor(l13, l27));
      o0 := Not(Xor(l6, l23));
    }
  }

  lemma SubLane(x: Bits, y: Bits, inv: bool)
    requires y == if inv then InvSubBits(x) else SubBits(x)
    ensures Pack(y) == if inv then InvSub(Pack(x)) else Sub(Pack(x))
  {
    hide SubBits, InvSubBits, SBox, InvSBox, Pack, Unpack;
    UnpackPack(x);
    SubBitsIsSBox(Pack(x).v);
    InvSubBitsIsInvSBox(Pack(x).v);
    PackUnpack(if inv then InvSBox(Pack(x).v) else SBox(Pack(x).v));
  }

  /** All the gates of SubBytes: the S-box, or its inverse, in every lane. */
  method SubBytesGates(u0: Word, u1: Word, u2: Word, u3: Word, u4: Word, u5: Word, u6: Word, u7: Word, inv: bool)
    returns (o0: Word, o1: Word, o2: Word, o3: Word, o4: Word, o5: Word, o6: Word, o7: Word)
    ensures forall k: nat {:trigger At(o0, k)} ::
      Pack(LaneOf(o0, o1, o2, o3, o4, o5, o6, o7, k)) ==
      var x := Pack(LaneOf(u7, u6, u5, u4, u3, u2, u1, u0, k));
      if inv then InvSub(x) else Sub(x)
  {
    hide At, Pack, Sub, InvSub, Preprocess, InvPreprocess, Invert, Postprocess, InvPostprocess;
    var t1, t2, t3, t4, t6, t8, t9, t10, t13, t14, t15, t16, t17, t19, t20, t22, t23, t24, t25, t26, t27, d :=
      TopGates(u0, u1, u2, u3, u4, u5, u6, u7, inv);
    var m46, m47, m48, m49, m50, m51, m52, m53, m54, m55, m56, m57, m58, m59, m60, m61, m62, m63 :=
      MiddleGates(t1, t2, t3, t4, t6, t8, t9, t10, t13, t14, t15, t16, t17, t19, t20, t22, t23, t24, t25, t26, t27, d);
    o0, o1, o2, o3, o4, o5, o6, o7 :=
      BottomGates(m46, m47, m48, m49, m50, m51, m52, m53, m54, m55, m56, m57, m58, m59, m60, m61, m62, m63, inv);
    forall k: nat
      ensures Pack(LaneOf(o0, o1, o2, o3, o4, o5, o6, o7, k)) ==
        var x := Pack(LaneOf(u7, u6, u5, u4, u3, u2, u1, u0, k));
        if inv then InvSub(x) else Sub(x)
    {
      SubLane(
        LaneOf(u7, u6, u5, u4, u3, u2, u1, u0, k),
        LaneOf(o0, o1, o2, o3, o4, o5, o6, o7, k), inv);
    }
  }

  /** SubBytes and its inverse, in place. */
  method SubBytes(s: array<Word>, inv: bool)
    requires s.Length == 8
    modifies s
    ensures forall k: nat :: Lane(s[..], k) == if inv then InvSub(Lane(old(s[..]), k)) else Sub(Lane(old(s[..]), k))
  {
    hide At, Pack, Sub, InvSub;
    var o0, o1, o2, o3, o4, o5, o6, o7 := SubBytesGates(s[7], s[6], s[5], s[4], s[3], s[2], s[1], s[0], inv);
    s[7] := o7;
    s[6] := o6;
    s[5] := o5;
    s[4] := o4;
    s[3] := o3;
    s[2] := o2;
    s[1] := o1;
    s[0] := o0;
  }
}
