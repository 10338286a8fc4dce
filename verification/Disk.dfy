/** The block device below the engine: `disk_read`, `disk_write`. */
module Media {
  import opened Bytes

  /** Concatenation of equally long sectors. */
  function Flat(secs: seq<Sector>): seq<byte>
  {
    if secs == [] then [] else secs[0] + Flat(secs[1..])
  }

  /** Cuts n sectors of ss bytes off a buffer. */
  function Chop(data: seq<byte>, n: nat, ss: nat): (secs: seq<Sector>)
    requires |data| == n * ss
    ensures |secs| == n && Uniform(secs, ss)
  {
    if n == 0 then []
    else
      assert |data| == ss + (n - 1) * ss;
      [data[..ss]] + Chop(data[ss..], n - 1, ss)
  }

  lemma ChopStep(data: seq<byte>, n: nat, ss: nat)
    requires n > 0 && |data| == n * ss
    ensures ss <= |data| && |data[ss..]| == (n - 1) * ss
    ensures Chop(data, n, ss) == [data[..ss]] + Chop(data[ss..], n - 1, ss)
  {
    assert n * ss == ss + (n - 1) * ss;
  }

  ghost predicate Uniform(secs: seq<Sector>, ss: nat)
  {
    forall i :: 0 <= i < |secs| ==> |secs[i]| == ss
  }

  lemma {:induction false} FlatLength(secs: seq<Sector>, ss: nat)
    requires Uniform(secs, ss)
    ensures |Flat(secs)| == |secs| * ss
  {
    if secs != [] {
      FlatLength(secs[1..], ss);
      assert |secs| * ss == ss + (|secs| - 1) * ss;
    }
  }

  lemma {:induction false} FlatConcat(a: seq<Sector>, b: seq<Sector>)
    ensures Flat(a + b) == Flat(a) + Flat(b)
  {
    if a == [] {
      assert a + b == b;
    } else {
      assert (a + b)[1..] == a[1..] + b;
      FlatConcat(a[1..], b);
    }
  }

  lemma FlatOne(s: Sector)
    ensures Flat([s]) == s
  {
    assert Flat([s]) == s + Flat([]);
  }

  lemma FlatCons(s: Sector, secs: seq<Sector>)
    ensures Flat([s] + secs) == s + Flat(secs)
  {
    assert ([s] + secs)[1..] == secs;
  }

  lemma OneLess(n: nat, ss: nat)
    requires n > 0
    ensures n * ss == ss + (n - 1) * ss && (n - 1) * ss >= 0
  {
  }

  lemma {:induction false} FlatChop(data: seq<byte>, n: nat, ss: nat)
    requires |data| == n * ss
    ensures Flat(Chop(data, n, ss)) == data
  {
    if n > 0 {
      OneLess(n, ss);
      var rest := Chop(data[ss..], n - 1, ss);
      FlatChop(data[ss..], n - 1, ss);
      FlatCons(data[..ss], rest);
      assert data == data[..ss] + data[ss..];
    }
  }

  /** n sectors of zeros. */
  function ZeroRun(n: nat, ss: nat): (r: seq<Sector>)
    ensures |r| == n && forall i :: 0 <= i < n ==> r[i] == Zeros(ss)
  {
    seq(n, _ => Zeros(ss))
  }

  class Disk {
    const size: nat     // number of sectors
    const ss: nat       // bytes per sector
    const mayFail: bool // whether the medium can report errors

    var sectors: seq<Sector>

    // every state the medium has been in since the volume was mounted, the current one last
    ghost var trace: seq<seq<Sector>>

    ghost predicate Valid()
      reads this
    {
      |sectors| == size <= 0xFFFF_FFFF && Uniform(sectors, ss)
    }

    constructor (image: seq<Sector>, bytesPerSector: nat, unreliable: bool)
      requires |image| <= 0xFFFF_FFFF && Uniform(image, bytesPerSector)
      ensures Valid() && sectors == image && trace == [image]
      ensures size == |image| && ss == bytesPerSector && mayFail == unreliable
    {
      size := |image|;
      ss := bytesPerSector;
      mayFail := unreliable;
      sectors := image;
      trace := [image];
    }

    /** Reads one sector; a failed transfer leaves buf unspecified. */
    method Read(buf: array<byte>, sector: nat) returns (ok: bool)
      requires Valid() && buf.Length == ss
      modifies buf
      ensures ok ==> sector < size && buf[..] == sectors[sector]
      ensures !ok ==> mayFail || sector >= size
    {
      ok := sector < size;
      if mayFail { ok := *; ok := ok && sector < size; }
      if ok {
        forall i | 0 <= i < buf.Length { buf[i] := sectors[sector][i]; }
      }
    }

    /** Writes one sector; a failed transfer changes nothing. */
    method Write(data: seq<byte>, sector: nat) returns (ok: bool)
      requires Valid() && |data| == ss
      modifies this
      ensures Valid()
      ensures ok ==> sector < size && sectors == old(sectors)[sector := data] && trace == old(trace) + [sectors]
      ensures !ok ==> (mayFail || sector >= size) && sectors == old(sectors) && trace == old(trace)
    {
      ok := sector < size;
      if mayFail { ok := *; ok := ok && sector < size; }
      if ok {
        sectors := sectors[sector := data];
        trace := trace + [sectors];
      }
    }

    /** Reads a run of sectors into the caller's memory. */
    method ReadMany(sector: nat, count: nat) returns (ok: bool, data: seq<byte>)
      requires Valid()
      ensures ok ==> sector + count <= size && data == Flat(sectors[sector..sector + count])
      ensures !ok ==> mayFail || sector + count > size
    {
      ok, data := sector + count <= size, [];
      if mayFail { ok := *; ok := ok && sector + count <= size; }
      if ok {
        data := Flat(sectors[sector..sector + count]);
      }
    }

    /** Writes a run of sectors from the caller's memory. */
    method WriteMany(data: seq<byte>, sector: nat, count: nat) returns (ok: bool)
      requires Valid() && |data| == count * ss
      modifies this
      ensures Valid()
      ensures ok ==> sector + count <= size && trace == old(trace) + [sectors]
      ensures ok ==> sectors == old(sectors)[..sector] + Chop(data, count, ss) + old(sectors)[sector + count..]
      ensures !ok ==> (mayFail || sector + count > size) && sectors == old(sectors) && trace == old(trace)
    {
      ok := sector + count <= size;
      if mayFail { ok := *; ok := ok && sector + count <= size; }
      if ok {
        sectors := sectors[..sector] + Chop(data, count, ss) + sectors[sector + count..];
        trace := trace + [sectors];
      }
    }
  }
}
