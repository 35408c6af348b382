/** A byte stream over 512-byte sectors (src/drivers/disk_stream.c). */
module DiskStreams {
  import opened Bytes

  const SECTOR := 512

  /** The drive. A sector in `reliable` always reads; any other may fail at any attempt. */
  class Device {
    const image: seq<Byte>
    const reliable: set<nat>

    constructor (image: seq<Byte>, reliable: set<nat>)
      ensures this.image == image && this.reliable == reliable
    {
      this.image := image;
      this.reliable := reliable;
    }

    method ReadSector(lba: nat) returns (r: Option<seq<Byte>>)
      ensures r.Some? ==> SECTOR * lba + SECTOR <= |image| && r.value == image[SECTOR * lba..SECTOR * lba + SECTOR]
      ensures SECTOR * lba + SECTOR <= |image| && lba in reliable ==> r.Some?
    {
      var luck: bool := *;
      if SECTOR * lba + SECTOR <= |image| && (lba in reliable || luck) {
        r := Some(image[SECTOR * lba..SECTOR * lba + SECTOR]);
      } else {
        r := None;
      }
    }
  }

  /** Every sector that `n` bytes from `pos` touch is on the drive and always reads. */
  ghost predicate Dependable(device: Device, pos: nat, n: nat)
  {
    forall lba: nat :: pos < 512 * lba + 512 && 512 * lba < pos + n ==>
      lba in device.reliable && 512 * lba + 512 <= |device.image|
  }

  class DiskStream {
    var pos: U32
    const device: Device

    constructor (device: Device)
      ensures this.device == device && pos == 0
    {
      this.device := device;
      pos := 0;
    }

    method Seek(to: U32)
      modifies this
      ensures pos == to
    {
      pos := to;
    }

    /** Copies `total` bytes of the drive, from the stream position, to `out[base..]`. */
    method Read(out: array<Byte>, base: nat, total: U32) returns (ok: bool)
      requires base + total <= out.Length
      modifies `pos, out
      ensures !ok ==> pos == old(pos)
      ensures ok ==> pos == Wrap32(old(pos) + total)
      ensures ok && total > 0 ==> old(pos) + total <= |device.image|
      ensures ok && total > 0 ==> out[base..base + total] == device.image[old(pos)..old(pos) + total]
      ensures forall j :: 0 <= j < out.Length && !(base <= j < base + total) ==> out[j] == old(out[j])
      ensures Dependable(device, old(pos), total) ==> ok
    {
      var sector, offset := pos / SECTOR, pos % SECTOR;
      var outPtr, left := base, total;
      while left > 0
        modifies out
        invariant 0 <= offset < SECTOR && 0 <= left <= total
        invariant outPtr == base + total - left
        invariant left > 0 ==> SECTOR * sector + offset == pos + total - left
        invariant left < total ==> pos + total - left <= |device.image|
        invariant forall j :: base <= j < outPtr ==>
          pos + j - base < |device.image| && out[j] == device.image[pos + j - base]
        invariant forall j :: 0 <= j < out.Length && !(base <= j < base + total) ==> out[j] == old(out[j])
      {
        assert pos < SECTOR * sector + SECTOR && SECTOR * sector < pos + total;
        var buffer := device.ReadSector(sector);
        if buffer.None? {
          return false;
        }
        var now := SECTOR - offset;
        if now > left {
          now := left;
        }
        var start := outPtr;
        for i := 0 to now
          modifies out
          invariant outPtr == start + i
          invariant forall j :: base <= j < outPtr ==>
            pos + j - base < |device.image| && out[j] == device.image[pos + j - base]
          invariant forall j :: 0 <= j < out.Length && !(base <= j < base + total) ==> out[j] == old(out[j])
        {
          out[outPtr] := buffer.value[offset + i];
          outPtr := outPtr + 1;
        }
        left := left - now;
        sector := sector + 1;
        offset := 0;
      }
      pos := Wrap32(pos + total);
      return true;
    }

    /** Two reads, one after the other, are one read of both lengths. */
    method ReadTwice(out: array<Byte>, base: nat, first: U32, second: U32) returns (ok: bool)
      requires base + first + second <= out.Length && pos + first + second < TWO_32
      modifies `pos, out
      ensures ok ==> pos == old(pos) + first + second
      ensures !ok ==> pos == old(pos) || pos == old(pos) + first
      ensures ok && first + second > 0 ==>
        && old(pos) + first + second <= |device.image|
        && out[base..base + first + second] == device.image[old(pos)..old(pos) + first + second]
      ensures forall j :: 0 <= j < out.Length && !(base <= j < base + first + second) ==> out[j] == old(out[j])
      ensures Dependable(device, old(pos), first) && Dependable(device, old(pos) + first, second) ==> ok
    {
      ghost var from := pos;
      ok := Read(out, base, first);
      ghost var front := out[base..base + first];
      if ok {
        ok := Read(out, base + first, second);
        assert out[base..base + first] == front;
        assert out[base..base + first + second] == out[base..base + first] + out[base + first..base + first + second];
        assert first > 0 && second > 0 && ok ==>
          device.image[from..from + first] + device.image[from + first..from + first + second] ==
            device.image[from..from + first + second];
      }
    }
  }
}
