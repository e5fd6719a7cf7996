/**
 * The Windows registry module's value decoder (`reg_to_py`), the lifecycle
 * of a registry handle object (`HKEYType`), and the argument checks that
 * `OpenKey` and `SetValue` make before they touch the registry. The
 * registry itself is an oracle: `Registry` records each call made to it
 * and answers from a fixed function.
 *
 * Multi-byte values are read little-endian: `from_ne_bytes` and the `u16`
 * view of the byte buffer use the native byte order, which is
 * little-endian on every Windows target.
 */
module Winreg {
  import opened Common

  /** `RegType`, with the discriminants of the Windows headers. */
  datatype RegType =
    | RegNone | RegSz | RegExpandSz | RegBinary | RegDword | RegDwordBigEndian | RegLink
    | RegMultiSz | RegResourceList | RegFullResourceDescriptor | RegResourceRequirementsList | RegQword

  /** `REG_SZ`. */
  const REG_SZ: u32 := 1

  /** `KEY_READ`: `STANDARD_RIGHTS_READ | KEY_QUERY_VALUE |
    * KEY_ENUMERATE_SUB_KEYS | KEY_NOTIFY`. */
  const KEY_READ: u32 := 0x20019

  /** The Python value `reg_to_py` builds. Strings are kept as their UTF-16
    * code units. */
  datatype RegPyValue =
    | Int(value: nat)
    | Str(units: seq<u16>)
    | List(strings: seq<seq<u16>>)
    | Bytes(data: seq<byte>)
    | NoneValue

  // ---------------------------------------------------------------------
  // Integers

  function Pow256(k: nat): (p: nat)
    ensures p > 0
  {
    if k == 0 then 1 else 0x100 * Pow256(k - 1)
  }

  /** The number whose little-endian bytes are `b`. */
  function LittleEndian(b: seq<byte>): nat
  {
    if b == [] then 0 else b[0] as nat + 0x100 * LittleEndian(b[1..])
  }

  /** The number whose big-endian bytes are `b`. */
  function BigEndian(b: seq<byte>): nat
  {
    if b == [] then 0 else BigEndian(b[..|b| - 1]) * 0x100 + b[|b| - 1] as nat
  }

  /** The `width` little-endian bytes of `n` (its low `width` bytes). */
  function EncodeLittleEndian(n: nat, width: nat): (b: seq<byte>)
    ensures |b| == width
  {
    if width == 0 then [] else [(n % 0x100) as byte] + EncodeLittleEndian(n / 0x100, width - 1)
  }

  function Reverse<T>(s: seq<T>): (r: seq<T>)
    ensures |r| == |s|
    ensures forall i :: 0 <= i < |s| ==> r[i] == s[|s| - 1 - i]
  {
    if s == [] then [] else Reverse(s[1..]) + [s[0]]
  }

  lemma {:induction false} LittleEndianBound(b: seq<byte>)
    ensures LittleEndian(b) < Pow256(|b|)
  {
    if b != [] {
      LittleEndianBound(b[1..]);
    }
  }

  /** Encoding a number that fits and decoding it gives it back. */
  lemma {:induction false} LittleEndianOfEncode(n: nat, width: nat)
    requires n < Pow256(width)
    ensures LittleEndian(EncodeLittleEndian(n, width)) == n
  {
    if width > 0 {
      LittleEndianOfEncode(n / 0x100, width - 1);
      var b := EncodeLittleEndian(n, width);
      assert b[1..] == EncodeLittleEndian(n / 0x100, width - 1);
    }
  }

  /** Decoding bytes and encoding the number at the same width gives the
    * bytes back. */
  lemma {:induction false} EncodeOfLittleEndian(b: seq<byte>)
    ensures EncodeLittleEndian(LittleEndian(b), |b|) == b
  {
    if b != [] {
      var rest := LittleEndian(b[1..]);
      var n := LittleEndian(b);
      assert n == rest * 0x100 + b[0] as nat;
      ByteSplit(rest, b[0] as nat);
      EncodeOfLittleEndian(b[1..]);
      assert EncodeLittleEndian(n, |b|) == [(n % 0x100) as byte] + EncodeLittleEndian(n / 0x100, |b| - 1);
      assert b == [b[0]] + b[1..];
    }
  }

  /** The low byte and the rest of a number. */
  lemma ByteSplit(q: nat, r: nat)
    requires r < 0x100
    ensures (q * 0x100 + r) % 0x100 == r && (q * 0x100 + r) / 0x100 == q
  {
  }

  /** Reading big-endian is reading the reversed bytes little-endian. */
  lemma {:induction false} BigEndianIsReversedLittleEndian(b: seq<byte>)
    ensures BigEndian(b) == LittleEndian(Reverse(b))
    decreases |b|
  {
    if b != [] {
      var init := b[..|b| - 1];
      BigEndianIsReversedLittleEndian(init);
      var r := Reverse(b);
      assert r[0] == b[|b| - 1];
      assert r[1..] == Reverse(init);
    }
  }

  /** The error of `bytes_to_int!`, whose text is the literal word `name`
    * (the macro stringifies `name`, not its `$name` argument). */
  const WRONG_LENGTH: Exc := ValueError("name value is wrong length")

  /** `bytes_to_int!`: empty data is 0; otherwise the slice must have
    * exactly the integer's width. */
  function BytesToInt(bytes: seq<byte>, width: nat, bigEndian: bool): (r: Result<RegPyValue>)
  {
    if bytes == [] then Ok(Int(0))
    else if |bytes| != width then Err(WRONG_LENGTH)
    else if bigEndian then Ok(Int(BigEndian(bytes)))
    else Ok(Int(LittleEndian(bytes)))
  }

  // ---------------------------------------------------------------------
  // UTF-16 strings

  /** The `u16` units of an even-length byte buffer in native (little-endian)
    * order. */
  function WideUnits(b: seq<byte>): (w: seq<u16>)
    requires |b| % 2 == 0
    ensures |w| == |b| / 2
  {
    if b == [] then [] else [(b[0] as int + 0x100 * b[1] as int) as u16] + WideUnits(b[2..])
  }

  /** Unit `i` is bytes `2i` (low) and `2i + 1` (high). */
  lemma {:induction false} WideUnitsIndex(b: seq<byte>, i: nat)
    requires |b| % 2 == 0 && i < |b| / 2
    ensures WideUnits(b)[i] as int == b[2 * i] as int + 0x100 * b[2 * i + 1] as int
  {
    if i > 0 {
      WideUnitsIndex(b[2..], i - 1);
      assert b[2..][2 * (i - 1)] == b[2 * i];
      assert b[2..][2 * (i - 1) + 1] == b[2 * i + 1];
    }
  }

  /** `bytes_to_wide`: the units, or nothing for an odd length. */
  function BytesToWide(b: seq<byte>): (r: Option<seq<u16>>)
    ensures r.Some? <==> |b| % 2 == 0
  {
    if |b| % 2 == 0 then Some(WideUnits(b)) else None
  }

  /** The bytes of a unit sequence, little-endian. */
  function UnitBytes(w: seq<u16>): (b: seq<byte>)
    ensures |b| == 2 * |w|
  {
    if w == [] then [] else [(w[0] as int % 0x100) as byte, (w[0] as int / 0x100) as byte] + UnitBytes(w[1..])
  }

  lemma {:induction false} WideUnitsOfUnitBytes(w: seq<u16>)
    ensures WideUnits(UnitBytes(w)) == w
  {
    if w != [] {
      var b := UnitBytes(w);
      var lo, hi := w[0] as int % 0x100, w[0] as int / 0x100;
      assert b[0] as int == lo && b[1] as int == hi;
      assert lo + 0x100 * hi == w[0] as int;
      assert b[2..] == UnitBytes(w[1..]);
      WideUnitsOfUnitBytes(w[1..]);
      assert WideUnits(b) == [w[0]] + WideUnits(b[2..]);
    }
  }

  /** `position(|w| *w == 0).unwrap_or(len)`. */
  function NulPosition(w: seq<u16>): (k: nat)
    ensures k <= |w|
  {
    if w == [] then 0 else if w[0] == 0 then 0 else 1 + NulPosition(w[1..])
  }

  /** Every unit before the position is nonzero, and the unit at it is the
    * NUL unless the position is the end. */
  lemma {:induction false} NulPositionSpec(w: seq<u16>)
    ensures NulFree(w[..NulPosition(w)])
    ensures NulPosition(w) < |w| ==> w[NulPosition(w)] == 0
  {
    if w != [] && w[0] != 0 {
      NulPositionSpec(w[1..]);
      var k := NulPosition(w);
      assert w[..k] == [w[0]] + w[1..][..k - 1];
    }
  }

  /** The units until the first NUL, or all of them. */
  function UntilNul(w: seq<u16>): seq<u16>
  {
    w[..NulPosition(w)]
  }

  /** `slice::split` on NUL units: the pieces between separators, always at
    * least one. */
  function SplitOnNul(w: seq<u16>): (parts: seq<seq<u16>>)
    ensures |parts| >= 1
    decreases |w|
  {
    var k := NulPosition(w);
    if k == |w| then [w] else [w[..k]] + SplitOnNul(w[k + 1..])
  }

  /** The inverse of `SplitOnNul`: the pieces with one NUL between each
    * neighbouring pair. */
  function JoinWithNul(parts: seq<seq<u16>>): seq<u16>
    requires |parts| >= 1
  {
    if |parts| == 1 then parts[0] else parts[0] + [0] + JoinWithNul(parts[1..])
  }

  predicate NulFree(s: seq<u16>)
  {
    forall i :: 0 <= i < |s| ==> s[i] != 0
  }

  function NulCount(w: seq<u16>): nat
  {
    multiset(w)[0]
  }

  /** Splitting gives NUL-free pieces that join back to the input, one more
    * piece than there are NULs. */
  lemma SplitOnNulSpec(w: seq<u16>)
    ensures JoinWithNul(SplitOnNul(w)) == w
    ensures |SplitOnNul(w)| == NulCount(w) + 1
    ensures forall i :: 0 <= i < |SplitOnNul(w)| ==> NulFree(SplitOnNul(w)[i])
  {
    SplitOnNulJoin(w);
    SplitOnNulCount(w);
    SplitOnNulPieces(w);
  }

  /** The first step of a split that finds a NUL at `k`. */
  lemma SplitOnNulStep(w: seq<u16>, k: nat, head: seq<u16>, rest: seq<u16>)
    requires k == NulPosition(w) && k < |w| && head == w[..k] && rest == w[k + 1..]
    ensures SplitOnNul(w) == [head] + SplitOnNul(rest)
  {
  }

  lemma AroundNul(w: seq<u16>, k: nat)
    requires k < |w| && w[k] == 0
    ensures w == w[..k] + [0] + w[k + 1..]
  {
  }

  lemma {:induction false} SplitOnNulJoin(w: seq<u16>)
    ensures JoinWithNul(SplitOnNul(w)) == w
    decreases |w|
  {
    var k := NulPosition(w);
    NulPositionSpec(w);
    if k == |w| {
      assert w[..k] == w;
    } else {
      SplitOnNulStep(w, k, w[..k], w[k + 1..]);
      AroundNul(w, k);
      var parts := SplitOnNul(w);
      assert parts[0] == w[..k] && parts[1..] == SplitOnNul(w[k + 1..]);
      SplitOnNulJoin(w[k + 1..]);
    }
  }

  lemma {:induction false} SplitOnNulCount(w: seq<u16>)
    ensures |SplitOnNul(w)| == NulCount(w) + 1
    decreases |w|
  {
    var k := NulPosition(w);
    NulPositionSpec(w);
    var head := w[..k];
    assert NulFree(head);
    assert 0 !in multiset(head);
    if k == |w| {
      assert head == w;
    } else {
      SplitOnNulStep(w, k, w[..k], w[k + 1..]);
      AroundNul(w, k);
      var rest := w[k + 1..];
      SplitOnNulCount(rest);
      assert multiset(w) == multiset(head) + multiset{0} + multiset(rest);
    }
  }

  lemma {:induction false} SplitOnNulPieces(w: seq<u16>)
    ensures forall i :: 0 <= i < |SplitOnNul(w)| ==> NulFree(SplitOnNul(w)[i])
    decreases |w|
  {
    var k := NulPosition(w);
    NulPositionSpec(w);
    if k == |w| {
      assert SplitOnNul(w) == [w];
    } else {
      SplitOnNulStep(w, k, w[..k], w[k + 1..]);
      var rest := w[k + 1..];
      SplitOnNulPieces(rest);
      var parts := SplitOnNul(w);
      forall i | 0 <= i < |parts|
        ensures NulFree(parts[i])
      {
        if i > 0 {
          assert parts[i] == SplitOnNul(rest)[i - 1];
        }
      }
    }
  }

  /** Joining NUL-free pieces and splitting gives the pieces back. */
  lemma {:induction false} SplitOfJoin(parts: seq<seq<u16>>)
    requires |parts| >= 1
    requires forall i :: 0 <= i < |parts| ==> NulFree(parts[i])
    ensures SplitOnNul(JoinWithNul(parts)) == parts
  {
    var p := parts[0];
    if |parts| == 1 {
      NulPositionOfNulFree(p, []);
      assert p + [] == p;
      assert SplitOnNul(p) == [p];
    } else {
      var rest := parts[1..];
      assert forall i :: 0 <= i < |rest| ==> NulFree(rest[i]) by {
        forall i | 0 <= i < |rest|
          ensures NulFree(rest[i])
        {
          assert rest[i] == parts[i + 1];
        }
      }
      SplitOfJoin(rest);
      SplitAfterNulFree(p, JoinWithNul(rest));
      assert JoinWithNul(parts) == p + ([0] + JoinWithNul(rest));
      assert parts == [p] + rest;
    }
  }

  /** Splitting a NUL-free piece, a NUL and the rest gives the piece, then
    * the split of the rest. */
  lemma SplitAfterNulFree(p: seq<u16>, rest: seq<u16>)
    requires NulFree(p)
    ensures SplitOnNul(p + ([0] + rest)) == [p] + SplitOnNul(rest)
  {
    var w := p + ([0] + rest);
    NulPositionOfNulFree(p, [0] + rest);
    SlicesAroundNul(p, rest);
    SplitOnNulStep(w, |p|, p, rest);
  }

  lemma SlicesAroundNul(p: seq<u16>, rest: seq<u16>)
    ensures (p + ([0] + rest))[..|p|] == p
    ensures (p + ([0] + rest))[|p| + 1..] == rest
  {
  }

  /** A NUL-free prefix is skipped entirely by the NUL search. */
  lemma {:induction false} NulPositionOfNulFree(p: seq<u16>, tail: seq<u16>)
    requires NulFree(p)
    requires tail == [] || tail[0] == 0
    ensures NulPosition(p + tail) == |p|
  {
    if p != [] {
      assert (p + tail)[1..] == p[1..] + tail;
      NulPositionOfNulFree(p[1..], tail);
    }
  }

  /** `split_last` with a 0 unit: one trailing NUL is dropped. */
  function DropTrailingNul(w: seq<u16>): seq<u16>
  {
    if |w| > 0 && w[|w| - 1] == 0 then w[..|w| - 1] else w
  }

  // ---------------------------------------------------------------------
  // reg_to_py

  function RegToPy(vtype: RegType, bytes: seq<byte>): Result<RegPyValue>
  {
    match vtype
    case RegDword => BytesToInt(bytes, 4, false)
    case RegDwordBigEndian => BytesToInt(bytes, 4, true)
    case RegQword => BytesToInt(bytes, 8, false)
    case RegSz | RegExpandSz =>
      var wide := BytesToWide(bytes);
      if wide.None? then Err(ValueError("REG_SZ string doesn't have an even byte length"))
      else Ok(Str(UntilNul(wide.value)))
    case RegMultiSz =>
      if bytes == [] then Ok(List([]))
      else
        var wide := BytesToWide(bytes);
        if wide.None? then Err(ValueError("REG_MULTI_SZ string doesn't have an even byte length"))
        else Ok(List(SplitOnNul(DropTrailingNul(wide.value))))
    case _ =>
      if bytes == [] then Ok(NoneValue) else Ok(Bytes(bytes))
  }

  predicate IsIntegerType(vtype: RegType)
  {
    vtype == RegDword || vtype == RegDwordBigEndian || vtype == RegQword
  }

  function IntegerWidth(vtype: RegType): nat
    requires IsIntegerType(vtype)
  {
    if vtype == RegQword then 8 else 4
  }

  /** The bytes an integer value of this type is stored as. */
  function IntegerBytes(vtype: RegType, n: nat): seq<byte>
    requires IsIntegerType(vtype)
  {
    var le := EncodeLittleEndian(n, IntegerWidth(vtype));
    if vtype == RegDwordBigEndian then Reverse(le) else le
  }

  /** REG_DWORD, REG_DWORD_BIG_ENDIAN and REG_QWORD: empty data reads as 0;
    * data of exactly the width reads as the number those bytes encode (in
    * the type's byte order) and every number of that width is read back
    * from its bytes; any other length fails. */
  lemma RegToPyInteger(vtype: RegType, bytes: seq<byte>, n: nat)
    requires IsIntegerType(vtype)
    ensures bytes == [] ==> RegToPy(vtype, bytes) == Ok(Int(0))
    ensures bytes != [] && |bytes| != IntegerWidth(vtype) ==> RegToPy(vtype, bytes) == Err(WRONG_LENGTH)
    ensures |bytes| == IntegerWidth(vtype) ==>
      RegToPy(vtype, bytes).Ok? && RegToPy(vtype, bytes).value.Int?
      && RegToPy(vtype, bytes).value.value < Pow256(IntegerWidth(vtype))
      && IntegerBytes(vtype, RegToPy(vtype, bytes).value.value) == bytes
    ensures n < Pow256(IntegerWidth(vtype)) ==> RegToPy(vtype, IntegerBytes(vtype, n)) == Ok(Int(n))
  {
    if |bytes| == IntegerWidth(vtype) {
      IntegerOfBytes(vtype, bytes);
    }
    if n < Pow256(IntegerWidth(vtype)) {
      BytesOfInteger(vtype, n);
    }
  }

  lemma IntegerOfBytes(vtype: RegType, bytes: seq<byte>)
    requires IsIntegerType(vtype) && |bytes| == IntegerWidth(vtype)
    ensures RegToPy(vtype, bytes) == Ok(Int(if vtype == RegDwordBigEndian then BigEndian(bytes) else LittleEndian(bytes)))
    ensures var n := if vtype == RegDwordBigEndian then BigEndian(bytes) else LittleEndian(bytes);
      n < Pow256(|bytes|) && IntegerBytes(vtype, n) == bytes
  {
    if vtype == RegDwordBigEndian {
      BigEndianIsReversedLittleEndian(bytes);
      LittleEndianBound(Reverse(bytes));
      EncodeOfLittleEndian(Reverse(bytes));
      ReverseReverse(bytes);
    } else {
      LittleEndianBound(bytes);
      EncodeOfLittleEndian(bytes);
    }
  }

  lemma BytesOfInteger(vtype: RegType, n: nat)
    requires IsIntegerType(vtype) && n < Pow256(IntegerWidth(vtype))
    ensures RegToPy(vtype, IntegerBytes(vtype, n)) == Ok(Int(n))
  {
    var le := EncodeLittleEndian(n, IntegerWidth(vtype));
    LittleEndianOfEncode(n, IntegerWidth(vtype));
    if vtype == RegDwordBigEndian {
      BigEndianIsReversedLittleEndian(Reverse(le));
      ReverseReverse(le);
    }
  }

  lemma ReverseReverse<T>(s: seq<T>)
    ensures Reverse(Reverse(s)) == s
  {
  }

  /** REG_SZ and REG_EXPAND_SZ: an odd length fails; otherwise the string is
    * the units before the first NUL, or all units when there is none. */
  lemma RegToPyString(vtype: RegType, bytes: seq<byte>)
    requires vtype == RegSz || vtype == RegExpandSz
    ensures |bytes| % 2 == 1 ==> RegToPy(vtype, bytes).Err? && RegToPy(vtype, bytes).error.ValueError?
    ensures |bytes| % 2 == 0 ==>
      var w := WideUnits(bytes);
      && RegToPy(vtype, bytes).Ok? && RegToPy(vtype, bytes).value.Str?
      && var s := RegToPy(vtype, bytes).value.units;
      && s <= w && NulFree(s) && (|s| < |w| ==> w[|s|] == 0)
  {
    if |bytes| % 2 == 0 {
      NulPositionSpec(WideUnits(bytes));
    }
  }

  /** A NUL-free string stored with or without its terminator reads back as
    * itself. */
  lemma RegToPyStringRoundTrip(s: seq<u16>, terminated: bool)
    requires NulFree(s)
    ensures RegToPy(RegSz, UnitBytes(if terminated then s + [0] else s)) == Ok(Str(s))
  {
    var tail: seq<u16> := if terminated then [0] else [];
    var w := s + tail;
    assert w == if terminated then s + [0] else s;
    NulPositionOfNulFree(s, tail);
    assert UntilNul(w) == s;
    BytesToWideOfUnitBytes(w);
    var b := UnitBytes(w);
    assert RegToPy(RegSz, b) == Ok(Str(UntilNul(w)));
  }

  lemma BytesToWideOfUnitBytes(w: seq<u16>)
    ensures BytesToWide(UnitBytes(w)) == Some(w)
  {
    WideUnitsOfUnitBytes(w);
    assert |UnitBytes(w)| == 2 * |w|;
  }

  /** REG_MULTI_SZ: empty data is the empty list, an odd length fails,
    * otherwise one trailing NUL is dropped and the rest is split on NULs,
    * giving NUL-free strings, one more than the NULs left. */
  lemma RegToPyMultiString(bytes: seq<byte>)
    ensures bytes == [] ==> RegToPy(RegMultiSz, bytes) == Ok(List([]))
    ensures |bytes| % 2 == 1 ==> RegToPy(RegMultiSz, bytes).Err? && RegToPy(RegMultiSz, bytes).error.ValueError?
    ensures bytes != [] && |bytes| % 2 == 0 ==>
      var rest := DropTrailingNul(WideUnits(bytes));
      && RegToPy(RegMultiSz, bytes).Ok? && RegToPy(RegMultiSz, bytes).value.List?
      && var strings := RegToPy(RegMultiSz, bytes).value.strings;
      && |strings| == NulCount(rest) + 1
      && JoinWithNul(strings) == rest
      && (forall i :: 0 <= i < |strings| ==> NulFree(strings[i]))
  {
    if bytes != [] && |bytes| % 2 == 0 {
      SplitOnNulSpec(DropTrailingNul(WideUnits(bytes)));
    }
  }

  /** Every other type: empty data is None, anything else the bytes as they
    * are. */
  lemma RegToPyOther(vtype: RegType, bytes: seq<byte>)
    requires !IsIntegerType(vtype) && vtype !in {RegSz, RegExpandSz, RegMultiSz}
    ensures RegToPy(vtype, bytes) == if bytes == [] then Ok(NoneValue) else Ok(Bytes(bytes))
  {
  }

  // ---------------------------------------------------------------------
  // Findings: the decoder as its authors evidently meant it

  /** The standard REG_MULTI_SZ layout: every string followed by a NUL, and
    * one more NUL at the end. */
  function MultiSzUnits(strings: seq<seq<u16>>): seq<u16>
  {
    Terminated(strings) + [0]
  }

  function Terminated(strings: seq<seq<u16>>): seq<u16>
  {
    if strings == [] then [] else strings[0] + [0] + Terminated(strings[1..])
  }

  /** As written: every list of NUL-free strings stored in the standard
    * layout reads back with an extra empty string at the end. */
  lemma MultiSzGainsEmptyString(strings: seq<seq<u16>>)
    requires forall i :: 0 <= i < |strings| ==> NulFree(strings[i])
    ensures RegToPy(RegMultiSz, UnitBytes(MultiSzUnits(strings))) == Ok(List(strings + [[]]))
  {
    var w := MultiSzUnits(strings);
    BytesToWideOfUnitBytes(w);
    WideUnitsOfUnitBytes(w);
    assert UnitBytes(w) != [];
    assert DropTrailingNul(w) == Terminated(strings);
    SplitOfTerminated(strings);
  }

  /** The smallest case of the above: `["a", "b"]` reads back as
    * `["a", "b", ""]`. */
  lemma MultiSzGainsEmptyStringExample()
    ensures RegToPy(RegMultiSz, UnitBytes(MultiSzUnits([[0x61], [0x62]]))) == Ok(List([[0x61], [0x62], []]))
  {
    var strings: seq<seq<u16>> := [[0x61], [0x62]];
    MultiSzGainsEmptyString(strings);
    assert strings + [[]] == [[0x61], [0x62], []];
  }

  /** Splitting NUL-terminated strings on every NUL leaves an empty piece
    * after the last terminator. */
  lemma {:induction false} SplitOfTerminated(strings: seq<seq<u16>>)
    requires forall i :: 0 <= i < |strings| ==> NulFree(strings[i])
    ensures SplitOnNul(Terminated(strings)) == strings + [[]]
  {
    if strings != [] {
      var p := strings[0];
      var rest := Terminated(strings[1..]);
      assert Terminated(strings) == p + ([0] + rest);
      SplitAfterNulFree(p, rest);
      SplitOfTerminated(strings[1..]);
      assert strings == [p] + strings[1..];
    }
  }

  /** As written: for every integer type the wrong-length error carries the
    * literal text "name value is wrong length", not the type's name. */
  lemma WrongLengthMessageIsLiteral(vtype: RegType, bytes: seq<byte>)
    ensures IsIntegerType(vtype) && bytes != [] && |bytes| != IntegerWidth(vtype) ==>
      RegToPy(vtype, bytes) == Err(ValueError("name value is wrong length"))
      && RegToPy(vtype, bytes) != Err(WrongLength(vtype))
  {
    if IsIntegerType(vtype) && bytes != [] && |bytes| != IntegerWidth(vtype) {
      RegToPyInteger(vtype, bytes, 0);
      assert WrongLength(vtype).msg[0] == 'R';
    }
  }

  /** The strings of NUL-terminated data (the last one may lack its NUL). */
  function SplitTerminated(w: seq<u16>): (parts: seq<seq<u16>>)
    decreases |w|
  {
    if w == [] then []
    else
      var k := NulPosition(w);
      if k == |w| then [w] else [w[..k]] + SplitTerminated(w[k + 1..])
  }

  lemma {:induction false} SplitTerminatedOfTerminated(strings: seq<seq<u16>>)
    requires forall i :: 0 <= i < |strings| ==> NulFree(strings[i])
    ensures SplitTerminated(Terminated(strings)) == strings
  {
    if strings != [] {
      var w := Terminated(strings);
      var p := strings[0];
      var tail := [0] + Terminated(strings[1..]);
      assert w == p + tail;
      NulPositionOfNulFree(p, tail);
      SlicesAroundNul(p, Terminated(strings[1..]));
      SplitTerminatedOfTerminated(strings[1..]);
      assert strings == [p] + strings[1..];
    }
  }

  /** The error text with the value type named. */
  function WrongLength(vtype: RegType): Exc
  {
    ValueError((if vtype == RegQword then "REG_QWORD" else if vtype == RegDwordBigEndian then "REG_DWORD_BIG_ENDIAN" else "REG_DWORD")
      + " value is wrong length")
  }

  /** `reg_to_py` with both slips corrected: the wrong-length error names the
    * type, and REG_MULTI_SZ data is read as NUL-terminated strings. */
  function RegToPyCorrected(vtype: RegType, bytes: seq<byte>): Result<RegPyValue>
  {
    match vtype
    case RegMultiSz =>
      if bytes == [] then Ok(List([]))
      else
        var wide := BytesToWide(bytes);
        if wide.None? then Err(ValueError("REG_MULTI_SZ string doesn't have an even byte length"))
        else Ok(List(SplitTerminated(DropTrailingNul(wide.value))))
    case _ =>
      if IsIntegerType(vtype) && bytes != [] && |bytes| != IntegerWidth(vtype) then Err(WrongLength(vtype))
      else RegToPy(vtype, bytes)
  }

  /** Corrected: every list of NUL-free strings stored in the standard layout
    * reads back as itself, and a wrong length names the type. */
  lemma RegToPyCorrectedSpec(strings: seq<seq<u16>>, vtype: RegType, bytes: seq<byte>)
    requires forall i :: 0 <= i < |strings| ==> NulFree(strings[i])
    ensures RegToPyCorrected(RegMultiSz, UnitBytes(MultiSzUnits(strings))) == Ok(List(strings))
    ensures IsIntegerType(vtype) && bytes != [] && |bytes| != IntegerWidth(vtype) ==>
      RegToPyCorrected(vtype, bytes) == Err(WrongLength(vtype))
    ensures !IsIntegerType(vtype) && vtype != RegMultiSz ==> RegToPyCorrected(vtype, bytes) == RegToPy(vtype, bytes)
  {
    var w := MultiSzUnits(strings);
    WideUnitsOfUnitBytes(w);
    assert DropTrailingNul(w) == Terminated(strings);
    SplitTerminatedOfTerminated(strings);
  }

  // ---------------------------------------------------------------------
  // HKEYType and the registry calls

  /** A raw `HKEY`: 0 is the null handle. */
  type Handle = nat

  /** A call into the registry. */
  datatype RegCall =
    | OpenSubkey(key: Handle, subKey: string, access: u32)
    | SetStringValue(key: Handle, subKey: string, value: string)

  /**
   * The registry, as seen through the `winreg` crate: the calls made so far,
   * the handles given back to it (a `RegKey` dropped), and a fixed function
   * that answers the n-th call (for an open, the new handle; an error comes
   * as the exception `to_pyexception` makes of it).
   */
  class Registry {
    var calls: seq<RegCall>
    var released: seq<Handle>
    const answer: (nat, RegCall) -> Result<Handle>

    constructor (answer: (nat, RegCall) -> Result<Handle>)
      ensures calls == [] && released == [] && this.answer == answer
    {
      calls := [];
      released := [];
      this.answer := answer;
    }

    method Call(c: RegCall) returns (r: Result<Handle>)
      modifies this`calls
      ensures r == answer(|old(calls)|, c) && calls == old(calls) + [c]
    {
      r := answer(|calls|, c);
      calls := calls + [c];
    }

    /** Dropping a `RegKey`. */
    method Release(h: Handle)
      modifies this`released
      ensures released == old(released) + [h]
    {
      released := released + [h];
    }
  }

  /** `HKEYType`: the object holding a registry key handle. */
  class PyHkey {
    var key: Handle

    constructor (key: Handle)
      ensures this.key == key
    {
      this.key := key;
    }

    /** `__bool__`. */
    predicate IsOpen()
      reads this
    {
      key != 0
    }

    /** `Close`: swap in the null handle and drop the old key. */
    method Close(reg: Registry)
      modifies this, reg`released
      ensures key == 0 && !IsOpen()
      ensures reg.released == old(reg.released) + [old(key)]
    {
      var old_key := key;
      key := 0;
      reg.Release(old_key);
    }

    /** `Detach`: swap in the null handle and hand the old one to the caller
      * without dropping it. */
    method Detach() returns (h: Handle)
      modifies this
      ensures h == old(key) && key == 0 && !IsOpen()
    {
      h := key;
      key := 0;
    }

    /** `__exit__`: the same as `Close`. */
    method Exit(reg: Registry)
      modifies this, reg`released
      ensures key == 0 && !IsOpen()
      ensures reg.released == old(reg.released) + [old(key)]
    {
      Close(reg);
    }
  }

  /** A key argument: a handle object, or a bare handle value such as
    * `HKEY_CURRENT_USER`. */
  datatype Hkey = KeyObject(obj: PyHkey) | Constant(handle: Handle)

  /** The handle a key argument stands for now. */
  function HandleOf(k: Hkey): Handle
    reads if k.KeyObject? then {k.obj} else {}
  {
    match k
    case KeyObject(obj) => obj.key
    case Constant(h) => h
  }

  /** `OpenKey` / `OpenKeyEx`: a nonzero `reserved` is refused before the
    * registry is asked. `reserved` defaults to 0 and `access` to
    * `KEY_READ`. */
  method OpenKey(key: Hkey, subKey: Option<string>, reg: Registry, reserved: int32 := 0, access: u32 := KEY_READ)
    returns (r: Result<PyHkey>)
    modifies reg`calls
    ensures reserved != 0 ==> r == Err(ValueError("reserved param must be 0")) && reg.calls == old(reg.calls)
    ensures reserved == 0 ==>
      var c := OpenSubkey(old(HandleOf(key)), if subKey.Some? then subKey.value else "", access);
      var answer := reg.answer(|old(reg.calls)|, c);
      && reg.calls == old(reg.calls) + [c]
      && (answer.Err? ==> r == Err(answer.error))
      && (answer.Ok? ==> r.Ok? && fresh(r.value) && r.value.key == answer.value)
  {
    if reserved != 0 {
      return Err(ValueError("reserved param must be 0"));
    }
    var sub := if subKey.Some? then subKey.value else "";
    var answer := reg.Call(OpenSubkey(HandleOf(key), sub, access));
    match answer
    case Err(e) => r := Err(e);
    case Ok(h) =>
      var obj := new PyHkey(h);
      r := Ok(obj);
  }

  /** Opening a predefined key with only the key given asks the registry
    * once for its default subkey with `KEY_READ` access. */
  method OpenKeyDefaultsScenario()
  {
    var reg := new Registry((n, c) => Ok(7));
    var r := OpenKey(Constant(0x8000_0001), None, reg);
    assert reg.calls == [OpenSubkey(0x8000_0001, "", KEY_READ)];
    assert r.Ok? && r.value.key == 7;
  }

  /** `SetValue`: only REG_SZ is accepted, before the registry is asked. */
  method SetValue(key: Hkey, subKey: Option<string>, typ: u32, value: string, reg: Registry)
    returns (r: Outcome)
    modifies reg`calls
    ensures typ != REG_SZ ==> r == Fail(TypeError("type must be winreg.REG_SZ")) && reg.calls == old(reg.calls)
    ensures typ == REG_SZ ==>
      var c := SetStringValue(old(HandleOf(key)), if subKey.Some? then subKey.value else "", value);
      var answer := reg.answer(|old(reg.calls)|, c);
      && reg.calls == old(reg.calls) + [c]
      && r == (if answer.Err? then Fail(answer.error) else Pass)
  {
    if typ != REG_SZ {
      return Fail(TypeError("type must be winreg.REG_SZ"));
    }
    var sub := if subKey.Some? then subKey.value else "";
    var done := reg.Call(SetStringValue(HandleOf(key), sub, value));
    r := if done.Err? then Fail(done.error) else Pass;
  }

  /** `CloseKey`: closes a handle object, or drops a bare handle. */
  method CloseKey(key: Hkey, reg: Registry)
    modifies if key.KeyObject? then {key.obj} else {}, reg`released
    ensures reg.released == old(reg.released) + [old(HandleOf(key))]
    ensures key.KeyObject? ==> key.obj.key == 0
  {
    match key
    case KeyObject(obj) => obj.Close(reg);
    case Constant(h) => reg.Release(h);
  }
}
