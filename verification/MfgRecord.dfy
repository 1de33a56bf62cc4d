/**
 The cached manufacturing record of `libbb/bb_persist.c`: one global record, filled by the first
 read that passes the check and served from memory afterwards.
 */
module MfgRecord {
  import opened Crc

  const SERIAL: nat := 32

  class Store {
    const cache: array<Byte>
    var loaded: bool

    ghost predicate Valid()
      reads this, cache
    {
      cache.Length == RECORD && (loaded ==> CrcOf(cache[..]) == ZERO)
    }

    constructor ()
      ensures Valid() && !loaded && fresh(cache)
    {
      cache := new Byte[RECORD](_ => Zeros(8));
      loaded := false;
    }

    // memcpy, whose two ends may be the same object here
    static method Copy(from: array<Byte>, to: array<Byte>, n: nat)
      requires n <= from.Length && n <= to.Length
      modifies to
      ensures to[..n] == old(from[..n]) && to[n..] == old(to[n..])
    {
      forall i | 0 <= i < n {
        to[i] := from[i];
      }
    }

    // What read puts into the caller's record: at most RECORD bytes
    static method Fill(device: seq<Byte>, to: array<Byte>) returns (n: nat)
      requires to.Length == RECORD
      modifies to
      ensures n == if |device| < RECORD then |device| else RECORD
      ensures to[..n] == device[..n] && to[n..] == old(to[n..])
    {
      n := if |device| < RECORD then |device| else RECORD;
      forall i | 0 <= i < n {
        to[i] := device[i];
      }
    }

    /**
     bb_mfg_read; `device` is what the partition yields, and `out` may be the cache itself, as it is
     when the accessors call. Only a record whose check value is right is ever served.
     */
    method Read(out: array<Byte>, device: seq<Byte>) returns (rc: int)
      requires Valid() && out.Length == RECORD
      modifies this, cache, out
      ensures Valid()
      ensures rc == if old(loaded) || (|device| >= RECORD && CrcOf(device[..RECORD]) == ZERO) then 0 else -1
      ensures loaded <==> rc == 0
      ensures rc == 0 ==> out[..] == cache[..] == if old(loaded) then old(cache[..]) else device[..RECORD]
      ensures rc != 0 && out != cache ==> cache[..] == old(cache[..])
      ensures rc != 0 && |device| >= RECORD ==> out[..] == device[..RECORD]
    {
      if loaded {
        Copy(cache, out, RECORD);
        assert out[..] == out[..RECORD] && cache[..] == cache[..RECORD] == old(cache[..RECORD]) == old(cache[..]);
        return 0;
      }
      var n := Fill(device, out);
      if n != RECORD {
        return -1;
      }
      assert out[..] == out[..RECORD] == device[..RECORD];
      var ok := Check(out);
      if !ok {
        return -1;
      }
      Copy(out, cache, RECORD);
      assert cache[..] == cache[..RECORD] == device[..RECORD];
      assert out[..] == out[..RECORD];
      loaded := true;
      return 0;
    }

    /**
     bb_mfg_serial ignores what the read says: the bytes it hands out belong to a record that
     passed exactly when the store ends up loaded, and otherwise to the record that failed.
     */
    method Serial(device: seq<Byte>) returns (serial: seq<Byte>)
      requires Valid()
      modifies this, cache
      ensures Valid() && serial == cache[..SERIAL]
      ensures loaded <==> old(loaded) || (|device| >= RECORD && CrcOf(device[..RECORD]) == ZERO)
      ensures old(loaded) ==> serial == old(cache[..SERIAL])
      ensures !old(loaded) && |device| >= RECORD ==> serial == device[..SERIAL]
    {
      if !loaded {
        var _ := Read(cache, device);
        assert |device| >= RECORD ==> cache[..][..SERIAL] == device[..RECORD][..SERIAL];
        assert |device| >= RECORD ==> device[..RECORD][..SERIAL] == device[..SERIAL];
      }
      assert cache[..SERIAL] == cache[..][..SERIAL];
      serial := cache[..SERIAL];
    }
  }
}
