/** kernel/usb/descriptor.hpp and the descriptor reader of kernel/usb/device.cpp. */
module Descriptors {
  import opened Options

  type Byte = x: nat | x < 256

  const CONFIGURATION: Byte := 2
  const INTERFACE: Byte := 4
  const ENDPOINT: Byte := 5

  /** A descriptor as its bytes: the length, the type, then the fields. */
  type Octets = seq<Byte>

  predicate WellFormed(d: Octets) {
    && |d| >= 2 && d[0] == |d|
    && (d[1] == INTERFACE ==> |d| >= 9) && (d[1] == ENDPOINT ==> |d| >= 7) && (d[1] == CONFIGURATION ==> |d| >= 9)
  }

  ghost predicate AllWellFormed(ds: seq<Octets>) { forall i :: 0 <= i < |ds| ==> WellFormed(ds[i]) }

  /** The descriptors one after another, as a device sends them. */
  function Serialise(ds: seq<Octets>): Octets {
    if ds == [] then [] else ds[0] + Serialise(ds[1..])
  }

  /** Where the k-th descriptor starts. */
  function Offset(ds: seq<Octets>, k: nat): nat
    requires k <= |ds|
  {
    if k == 0 then 0 else |ds[0]| + Offset(ds[1..], k - 1)
  }

  /** The k-th descriptor is at its offset, and offsets tile the buffer. */
  lemma {:induction false} AtOffset(ds: seq<Octets>, k: nat)
    requires k <= |ds|
    ensures k < |ds| ==> Offset(ds, k + 1) == Offset(ds, k) + |ds[k]| <= |Serialise(ds)|
    ensures k < |ds| ==> Serialise(ds)[Offset(ds, k)..Offset(ds, k) + |ds[k]|] == ds[k]
    ensures Offset(ds, |ds|) == |Serialise(ds)|
  {
    if ds != [] {
      AtOffset(ds[1..], if k == 0 then 0 else k - 1);
      if k > 0 && k < |ds| {
        var o, n := Offset(ds[1..], k - 1), |ds[k]|;
        Shift(ds[0], Serialise(ds[1..]), o, n);
      } else {
        assert Serialise(ds)[..|ds[0]|] == ds[0];
      }
    }
  }

  lemma Shift(a: Octets, b: Octets, o: nat, n: nat)
    requires o + n <= |b|
    ensures (a + b)[|a| + o..|a| + o + n] == b[o..o + n]
  {
  }

  /** A descriptor that starts before the end of the buffer is not the end. */
  lemma {:induction false} OffsetBelowEnd(ds: seq<Octets>, k: nat)
    requires k <= |ds| && AllWellFormed(ds)
    ensures k < |ds| <==> Offset(ds, k) < |Serialise(ds)|
    decreases |ds| - k
  {
    AtOffset(ds, k);
    if k < |ds| { OffsetBelowEnd(ds, k + 1); }
  }

  /** The byte at position i of the k-th descriptor. */
  lemma ByteOf(ds: seq<Octets>, k: nat, i: nat)
    requires k < |ds| && i < |ds[k]|
    ensures Offset(ds, k) + i < |Serialise(ds)| && Serialise(ds)[Offset(ds, k) + i] == ds[k][i]
  {
    AtOffset(ds, k);
    var s, o := Serialise(ds), Offset(ds, k);
    assert s[o..o + |ds[k]|][i] == s[o + i];
  }

  /** Index of the first descriptor after the k-th that has the type, or the number of descriptors. */
  function NextOfType(ds: seq<Octets>, k: nat, kind: Byte): (j: nat)
    requires k < |ds| && forall i :: 0 <= i < |ds| ==> |ds[i]| >= 2
    ensures k < j <= |ds| && (j < |ds| ==> ds[j][1] == kind) && forall i :: k < i < j ==> ds[i][1] != kind
    decreases |ds| - k
  {
    if k + 1 == |ds| || ds[k + 1][1] == kind then k + 1 else NextOfType(ds, k + 1, kind)
  }

  /** ConfigurationDescriptorReader; it starts on the first descriptor. */
  class Reader {
    const buf: Octets
    var p: nat

    constructor (buf: Octets)
      ensures this.buf == buf && p == 0
    {
      this.buf, p := buf, 0;
    }

    /** The reader stands on the k-th descriptor of a serialised list. */
    ghost predicate On(ds: seq<Octets>, k: nat)
      reads this
    {
      AllWellFormed(ds) && k <= |ds| && buf == Serialise(ds) && p == Offset(ds, k)
    }

    /** Each descriptor after the first, once and in order, then nothing. */
    method Next(ghost ds: seq<Octets>, ghost k: nat) returns (n: Option<nat>)
      requires On(ds, k) && k < |ds|
      modifies this
      ensures On(ds, k + 1)
      ensures n == if k + 1 < |ds| then Some(Offset(ds, k + 1)) else None
    {
      hide Serialise, Offset, AllWellFormed;
      assert WellFormed(ds[k]) by { Each(ds, k); }
      ByteOf(ds, k, 0);
      AtOffset(ds, k);
      p := p + buf[p];
      OffsetBelowEnd(ds, k + 1);
      if p < |buf| { return Some(p); }
      return None;
    }

    /** The next descriptor of one type. */
    method NextTyped(kind: Byte, ghost ds: seq<Octets>, ghost k: nat) returns (n: Option<nat>)
      requires On(ds, k) && k < |ds|
      modifies this
      ensures var j := NextOfType(ds, k, kind); On(ds, j) && n == if j < |ds| then Some(Offset(ds, j)) else None
    {
      hide Serialise, Offset;
      ghost var at := k;
      while true
        invariant k <= at < |ds| && On(ds, at) && NextOfType(ds, at, kind) == NextOfType(ds, k, kind)
        decreases |ds| - at
      {
        n := Next(ds, at);
        at := at + 1;
        if n == None { return None; }
        ByteOf(ds, at, 1);
        if buf[n.value + 1] == kind { return; }
      }
    }
  }

  lemma Each(ds: seq<Octets>, k: nat)
    requires AllWellFormed(ds) && k < |ds|
    ensures WellFormed(ds[k])
  {
  }
}
