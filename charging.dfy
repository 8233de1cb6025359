/**
 * `basic_charge_ind`: the 50-byte ChargeInd PDU. After the header come the
 * charge ratio word (20), the charge type word (24), the charge source from
 * 28 and the charge location byte (39).
 */
module Charging {
  import opened Bytes
  import opened Buffer
  import opened Types

  /** Capacity of a ChargeInd buffer. */
  const LENGTH_CHARGE_IND: nat := 50
  /** `charge_src(dest)` copies this many bytes. */
  const SOURCE_COPY: nat := 21

  function ChargeRatio(s: seq<Byte>): U32
    requires |s| == LENGTH_CHARGE_IND
  {
    GetU32(s, CHARGE_RATIO)
  }

  function ChargeType(s: seq<Byte>): U32
    requires |s| == LENGTH_CHARGE_IND
  {
    GetU32(s, CHARGE_TYPE)
  }

  function ChargeLoc(s: seq<Byte>): Byte
    requires |s| == LENGTH_CHARGE_IND
  {
    s[CHARGE_LOCATION]
  }

  /** `set_charge_ratio(cr)`: `assign` of the word at 20; `charge_ratio()` reads it back. */
  method SetChargeRatio(p: StaticBuffer, cr: U32)
    requires p.data.Length == LENGTH_CHARGE_IND
    modifies p.data
    ensures p.data[..] == PutU32(old(p.data[..]), CHARGE_RATIO, cr) && ChargeRatio(p.data[..]) == cr
  {
    p.Assign32(cr, CHARGE_RATIO);
  }

  /** `set_charge_type(ct)`: `assign` of the word at 24; `charge_type()` reads it back. */
  method SetChargeType(p: StaticBuffer, ct: U32)
    requires p.data.Length == LENGTH_CHARGE_IND
    modifies p.data
    ensures p.data[..] == PutU32(old(p.data[..]), CHARGE_TYPE, ct) && ChargeType(p.data[..]) == ct
  {
    p.Assign32(ct, CHARGE_TYPE);
  }

  /** `set_charge_loc(l)`: the byte at 39; `charge_loc()` reads it back. */
  method SetChargeLoc(p: StaticBuffer, l: Byte)
    requires p.data.Length == LENGTH_CHARGE_IND
    modifies p.data
    ensures p.data[..] == old(p.data[..])[CHARGE_LOCATION := l] && ChargeLoc(p.data[..]) == l
  {
    p.Assign8(l, CHARGE_LOCATION);
  }

  /** `charge_src(dest)`: `dest` cleared, then 21 raw bytes from 28 copied in, up to byte 48. */
  method ChargeSrcInto(p: StaticBuffer, dest: array<Byte>)
    requires p.data.Length == LENGTH_CHARGE_IND && p.data != dest && SOURCE_COPY <= dest.Length
    modifies dest
    ensures dest[..] == CopiedOut(old(dest[..]), dest.Length, p.data[CHARGE_SOURCE..CHARGE_SOURCE + SOURCE_COPY])
  {
    CopyOut(p.data, CHARGE_SOURCE, dest, dest.Length, SOURCE_COPY);
  }

  /**
   * `set_charge_src(src, sz)` as written: `assign_n` with begin = the location
   * offset 39 and end = the source offset 28. The range is empty, so nothing
   * is written.
   */
  method SetChargeSrc(p: StaticBuffer, v: seq<Byte>, sz: nat)
    requires p.data.Length == LENGTH_CHARGE_IND
    modifies p.data
    ensures p.data[..] == Splice(old(p.data[..]), CHARGE_LOCATION, CHARGE_SOURCE, v, sz)
  {
    p.AssignN(v, sz, CHARGE_LOCATION, CHARGE_SOURCE);
  }

  /** `set_charge_src` with its two offsets in order: `assign_n` over [28, 39). */
  method SetChargeSrcFixed(p: StaticBuffer, v: seq<Byte>, sz: nat)
    requires p.data.Length == LENGTH_CHARGE_IND && Min(sz, CHARGE_LOCATION - CHARGE_SOURCE) <= |v|
    modifies p.data
    ensures p.data[..] == Splice(old(p.data[..]), CHARGE_SOURCE, CHARGE_LOCATION, v, sz)
  {
    p.AssignN(v, sz, CHARGE_SOURCE, CHARGE_LOCATION);
  }

  /** The two words and the location byte are disjoint: each setter keeps the other two. */
  lemma SettersIndependent(s: seq<Byte>, cr: U32, ct: U32, l: Byte)
    requires |s| == LENGTH_CHARGE_IND
    ensures var t := PutU32(s, CHARGE_RATIO, cr);
      ChargeRatio(t) == cr && ChargeType(t) == ChargeType(s) && ChargeLoc(t) == ChargeLoc(s)
    ensures var t := PutU32(s, CHARGE_TYPE, ct);
      ChargeType(t) == ct && ChargeRatio(t) == ChargeRatio(s) && ChargeLoc(t) == ChargeLoc(s)
    ensures var t := s[CHARGE_LOCATION := l];
      ChargeLoc(t) == l && ChargeRatio(t) == ChargeRatio(s) && ChargeType(t) == ChargeType(s)
  {
    GetPutU32(s, CHARGE_RATIO, cr);
    GetU32Local(PutU32(s, CHARGE_RATIO, cr), s, CHARGE_TYPE);
    GetPutU32(s, CHARGE_TYPE, ct);
    GetU32Local(PutU32(s, CHARGE_TYPE, ct), s, CHARGE_RATIO);
    GetU32Local(s[CHARGE_LOCATION := l], s, CHARGE_RATIO);
    GetU32Local(s[CHARGE_LOCATION := l], s, CHARGE_TYPE);
  }

  /** What `charge_src(dest)` copies takes in the charge location: its 12th byte is `charge_loc()`. */
  lemma ChargeSrcCoversLocation(s: seq<Byte>)
    requires |s| == LENGTH_CHARGE_IND
    ensures CHARGE_SOURCE + SOURCE_COPY <= LENGTH_CHARGE_IND
    ensures s[CHARGE_SOURCE..CHARGE_SOURCE + SOURCE_COPY][CHARGE_LOCATION - CHARGE_SOURCE] == ChargeLoc(s)
  {
  }

  /** The setter as written changes nothing, whatever it is given. */
  lemma SetChargeSrcIsNoOp(s: seq<Byte>, v: seq<Byte>, sz: nat)
    requires |s| == LENGTH_CHARGE_IND
    ensures Splice(s, CHARGE_LOCATION, CHARGE_SOURCE, v, sz) == s
  {
  }

  /** An instance: on a fresh buffer, setting the source to "SP01" leaves the copied source all zero. */
  lemma SetChargeSrcExample()
    ensures var v := ['S' as int, 'P' as int, '0' as int, '1' as int];
      var t := Splice(Zeros(LENGTH_CHARGE_IND), CHARGE_LOCATION, CHARGE_SOURCE, v, |v|);
      t[CHARGE_SOURCE..CHARGE_SOURCE + 4] == [0, 0, 0, 0] != v
  {
    var v := ['S' as int, 'P' as int, '0' as int, '1' as int];
    SetChargeSrcIsNoOp(Zeros(LENGTH_CHARGE_IND), v, |v|);
  }

  /**
   * The corrected setter: the first 11 bytes of what `charge_src(dest)` copies
   * out are the copied prefix of the value and zeros, and the ratio, the type
   * and the location are kept.
   */
  lemma SetChargeSrcFixedRoundTrip(s: seq<Byte>, v: seq<Byte>, sz: nat)
    requires |s| == LENGTH_CHARGE_IND && Min(sz, CHARGE_LOCATION - CHARGE_SOURCE) <= |v|
    ensures var t := Splice(s, CHARGE_SOURCE, CHARGE_LOCATION, v, sz);
      && t[CHARGE_SOURCE..CHARGE_SOURCE + SOURCE_COPY][..CHARGE_LOCATION - CHARGE_SOURCE]
         == SpliceWindow(v, sz, CHARGE_LOCATION - CHARGE_SOURCE)
      && ChargeLoc(t) == ChargeLoc(s) && ChargeRatio(t) == ChargeRatio(s) && ChargeType(t) == ChargeType(s)
  {
    var t := Splice(s, CHARGE_SOURCE, CHARGE_LOCATION, v, sz);
    SpliceWindowIs(s, CHARGE_SOURCE, CHARGE_LOCATION, v, sz);
    assert t[CHARGE_SOURCE..CHARGE_SOURCE + SOURCE_COPY][..CHARGE_LOCATION - CHARGE_SOURCE]
        == t[CHARGE_SOURCE..CHARGE_LOCATION];
    GetU32Local(t, s, CHARGE_RATIO);
    GetU32Local(t, s, CHARGE_TYPE);
  }
}
