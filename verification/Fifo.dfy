/** The ring buffer of librsound (src/librsound/buffer.c): one spare slot, split copies at the wrap. */
module Fifo {
  import opened Bytes

  class RingBuffer {
    var buffer: array<Byte>
    var bufsize: nat
    var first: nat
    var end: nat

    ghost predicate Valid()
      reads this
    {
      buffer.Length == bufsize && first < bufsize && end < bufsize
    }

    ghost function Contents(): (s: seq<Byte>)
      reads this, buffer
      requires Valid()
      ensures |s| < bufsize
    {
      QueueOf(buffer[..], first, end)
    }

    constructor (size: nat)
      ensures Valid() && fresh(buffer)
      ensures Contents() == [] && bufsize == size + 1
    {
      buffer := new Byte[size + 1](_ => 0);
      bufsize := size + 1;
      first, end := 0, 0;
    }

    method ReadAvail() returns (n: nat)
      requires Valid()
      ensures n == |Contents()|
    {
      var e := end;
      if e < first {
        e := e + bufsize;
      }
      n := e - first;
    }

    method WriteAvail() returns (n: nat)
      requires Valid()
      ensures n + |Contents()| == bufsize - 1
    {
      var e := end;
      if e < first {
        e := e + bufsize;
      }
      n := (bufsize - 1) - (e - first);
    }

    /** Appends the first `size` bytes of `input`; the caller has checked the space. */
    method Write(input: array<Byte>, size: nat)
      requires Valid() && input != buffer
      requires size <= input.Length
      requires |Contents()| + size <= bufsize - 1
      modifies this`end, buffer
      ensures Valid() && Contents() == old(Contents()) + input[..size]
    {
      StoredAppends(buffer[..], first, end, input[..size]);
      StorePieces(buffer, end, input, size);
      end := (end + size) % bufsize;
    }

    /** Moves the oldest `size` bytes to the front of `output`. */
    method Read(output: array<Byte>, size: nat)
      requires Valid() && output != buffer
      requires size <= output.Length && size <= |Contents()|
      modifies this`first, output
      ensures Valid() && Contents() == old(Contents())[size..]
      ensures output[..] == old(Contents())[..size] + old(output[size..])
    {
      LoadedIsOldest(buffer[..], first, end, size);
      LoadPieces(buffer, first, output, size);
      first := (first + size) % bufsize;
    }
  }

  /** The two copies of rsnd_fifo_write. */
  method StorePieces(buffer: array<Byte>, end: nat, input: array<Byte>, size: nat)
    requires buffer != input && end < buffer.Length && size <= input.Length && size < buffer.Length
    modifies buffer
    ensures buffer[..] == Stored(old(buffer[..]), end, input[..size])
  {
    ghost var before, data := buffer[..], input[..size];
    var firstWrite, restWrite := size, 0;
    if end + size > buffer.Length {
      firstWrite := buffer.Length - end;
      restWrite := size - firstWrite;
    }
    CopyInto(buffer, end, input, 0, firstWrite);
    assert input[0..firstWrite] == data[..firstWrite];
    if restWrite > 0 {
      CopyInto(buffer, 0, input, firstWrite, restWrite);
      assert input[firstWrite..size] == data[firstWrite..];
      StoredInPieces(before, end, data);
    }
  }

  /** The two copies of rsnd_fifo_read. */
  method LoadPieces(buffer: array<Byte>, first: nat, output: array<Byte>, size: nat)
    requires buffer != output && first < buffer.Length && size <= output.Length && size < buffer.Length
    modifies output
    ensures output[..] == Loaded(buffer[..], first, size) + old(output[size..])
  {
    ghost var ring, before := buffer[..], output[..];
    var firstRead, restRead := size, 0;
    if first + size > buffer.Length {
      firstRead := buffer.Length - first;
      restRead := size - firstRead;
    }
    CopyInto(output, 0, buffer, first, firstRead);
    if restRead > 0 {
      assert buffer[first..first + firstRead] == ring[first..];
      CopyInto(output, firstRead, buffer, 0, restRead);
      LoadedInPieces(ring, first, size, before);
    }
  }

  /** The queue stored in ring `b` between `f` and `e`, oldest byte first. */
  function QueueOf(b: seq<Byte>, f: nat, e: nat): (s: seq<Byte>)
    requires f < |b| && e < |b|
  {
    if f <= e then b[f..e] else b[f..] + b[..e]
  }

  /** Ring `b` after storing `d` at `e`, split in two when it passes the end. */
  function Stored(b: seq<Byte>, e: nat, d: seq<Byte>): (r: seq<Byte>)
    requires e < |b| && |d| < |b|
  {
    if e + |d| <= |b| then b[..e] + d + b[e + |d|..]
    else d[|b| - e..] + b[e + |d| - |b|..e] + d[..|b| - e]
  }

  /** The `n` ring bytes starting at `f`, joined from two pieces when they pass the end. */
  function Loaded(b: seq<Byte>, f: nat, n: nat): seq<Byte>
    requires f < |b| && n < |b|
  {
    if f + n <= |b| then b[f..f + n] else b[f..] + b[..f + n - |b|]
  }

  lemma StoredAppends(b: seq<Byte>, f: nat, e: nat, d: seq<Byte>)
    requires f < |b| && e < |b|
    requires |QueueOf(b, f, e)| + |d| < |b|
    ensures QueueOf(Stored(b, e, d), f, (e + |d|) % |b|) == QueueOf(b, f, e) + d
  {
    WrapAround(e, |d|, |b|);
    if f > e {
      StoredBelowFirst(b, f, e, d);
    } else if e + |d| <= |b| {
      StoredUnsplit(b, f, e, d);
    } else {
      StoredSplit(b, f, e, d);
    }
  }

  lemma StoredBelowFirst(b: seq<Byte>, f: nat, e: nat, d: seq<Byte>)
    requires e + |d| < f < |b|
    ensures QueueOf(Stored(b, e, d), f, e + |d|) == QueueOf(b, f, e) + d
  {
    var head, tail := b[..e] + d, b[e + |d|..];
    assert tail[f - |head|..] == b[f..];
    Joined(head, tail, f);
    assert b[f..] + (b[..e] + d) == (b[f..] + b[..e]) + d;
  }

  /** Cutting a joined sequence at its joint and behind it. */
  lemma Joined(a: seq<Byte>, b: seq<Byte>, k: nat)
    requires |a| <= k <= |a + b|
    ensures (a + b)[..|a|] == a && (a + b)[k..] == b[k - |a|..] && (a + b)[..k] == a + b[..k - |a|]
  {
  }

  lemma StoredUnsplit(b: seq<Byte>, f: nat, e: nat, d: seq<Byte>)
    requires f <= e < |b| && e + |d| <= |b| && e - f + |d| < |b|
    ensures QueueOf(Stored(b, e, d), f, if e + |d| < |b| then e + |d| else 0) == QueueOf(b, f, e) + d
  {
    var r := Stored(b, e, d);
    assert r[f..e + |d|] == b[f..e] + d;
    if e + |d| == |b| {
      assert r[f..] == r[f..e + |d|];
    }
  }

  lemma StoredSplit(b: seq<Byte>, f: nat, e: nat, d: seq<Byte>)
    requires f <= e < |b| < e + |d| && e - f + |d| < |b|
    ensures QueueOf(Stored(b, e, d), f, e + |d| - |b|) == QueueOf(b, f, e) + d
  {
    var r := Stored(b, e, d);
    assert r[f..] == b[f..e] + d[..|b| - e];
    assert r[..e + |d| - |b|] == d[|b| - e..];
  }

  lemma LoadedIsOldest(b: seq<Byte>, f: nat, e: nat, n: nat)
    requires f < |b| && e < |b|
    requires n <= |QueueOf(b, f, e)|
    ensures Loaded(b, f, n) == QueueOf(b, f, e)[..n]
    ensures QueueOf(b, (f + n) % |b|, e) == QueueOf(b, f, e)[n..]
  {
    WrapAround(f, n, |b|);
    if f <= e {
      assert b[f..e][..n] == b[f..f + n] && b[f..e][n..] == b[f + n..e];
    } else if f + n < |b| {
      LoadedUnsplit(b[f..], b[..e], n);
      assert b[f..][..n] == b[f..f + n] && b[f..][n..] == b[f + n..];
    } else {
      var m := |b| - f;
      Joined(b[f..], b[..e], n);
      assert b[..e][..n - m] == b[..n - m] && b[..e][n - m..] == b[n - m..e];
      assert f + n == |b| ==> b[f..f + n] == b[f..] + b[..0];
    }
  }

  lemma LoadedUnsplit(a: seq<Byte>, b: seq<Byte>, n: nat)
    requires n <= |a|
    ensures (a + b)[..n] == a[..n] && (a + b)[n..] == a[n..] + b
  {
  }

  /** What two memcpy calls leave behind at the wrap is the stored ring; likewise for the loaded bytes. */
  lemma StoredInPieces(b: seq<Byte>, e: nat, d: seq<Byte>)
    requires e < |b| && |d| < |b| < e + |d|
    ensures Splice(Splice(b, e, d[..|b| - e]), 0, d[|b| - e..]) == Stored(b, e, d)
  {
    var m := |b| - e;
    var x := Splice(b, e, d[..m]);
    assert x == b[..e] + d[..m];
    assert x[|d| - m..] == b[|d| - m..e] + d[..m];
  }

  lemma LoadedInPieces(b: seq<Byte>, f: nat, n: nat, o: seq<Byte>)
    requires f < |b| && n < |b| < f + n && n <= |o|
    ensures Splice(Splice(o, 0, b[f..]), |b| - f, b[0..n - (|b| - f)]) == Loaded(b, f, n) + o[n..]
  {
    var m := |b| - f;
    assert Splice(o, 0, b[f..]) == b[f..] + o[m..];
    assert (b[f..] + o[m..])[n..] == o[n..];
  }

  lemma WrapAround(i: nat, n: nat, m: nat)
    requires i < m && n <= m
    ensures (i + n) % m == if i + n < m then i + n else i + n - m
  {
    if i + n >= m {
      assert (i + n) % m == (i + n - m) % m;
    }
  }
}
