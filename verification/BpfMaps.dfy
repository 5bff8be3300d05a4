/**
 Kernel hash maps: finite maps with a fixed capacity. Replacing a present key always
 succeeds; a new key is refused once the map is full.
 */
module BpfMaps {
  import opened Options

  datatype Flag = BpfAny | BpfNoExist

  datatype Errno = Ok | Exists | TooBig | NoEntry

  function UpdateError<K, V>(m: map<K, V>, max: nat, k: K, flag: Flag): Errno {
    if k in m then (if flag == BpfNoExist then Exists else Ok)
    else if |m| < max then Ok
    else TooBig
  }

  function Updated<K, V>(m: map<K, V>, max: nat, k: K, v: V, flag: Flag): map<K, V> {
    if UpdateError(m, max, k, flag) == Ok then m[k := v] else m
  }

  class BpfHash<K(==), V> {
    const maxEntries: nat
    var entries: map<K, V>

    constructor (max: nat)
      ensures maxEntries == max && entries == map[]
    {
      maxEntries := max;
      entries := map[];
    }

    method Lookup(k: K) returns (r: Option<V>)
      ensures r.Some? <==> k in entries
      ensures r.Some? ==> r.value == entries[k]
    {
      if k in entries {
        return Some(entries[k]);
      }
      return None;
    }

    method Update(k: K, v: V, flag: Flag) returns (err: Errno)
      modifies this
      ensures err == UpdateError(old(entries), maxEntries, k, flag)
      ensures entries == Updated(old(entries), maxEntries, k, v, flag)
    {
      if k in entries && flag == BpfNoExist {
        return Exists;
      }
      if k !in entries && |entries| >= maxEntries {
        return TooBig;
      }
      entries := entries[k := v];
      return Ok;
    }

    method Delete(k: K) returns (err: Errno)
      modifies this
      ensures entries == old(entries) - {k}
      ensures err == if k in old(entries) then Ok else NoEntry
    {
      err := if k in entries then Ok else NoEntry;
      entries := entries - {k};
    }

    /** Returns whether there is an element to point at afterwards. An insertion that lost a
        race against another insertion of the same key still finds that element. */
    method LookupOrTryInit(k: K, init: V) returns (found: bool)
      modifies this
      ensures found <==> k in entries
      ensures found <==> k in old(entries) || |old(entries)| < maxEntries
      ensures entries == if found && k !in old(entries) then old(entries)[k := init] else old(entries)
    {
      var val := Lookup(k);
      if val.Some? {
        return true;
      }
      var err := Update(k, init, BpfNoExist);
      if err != Ok && err != Exists {
        return false;
      }
      val := Lookup(k);
      return val.Some?;
    }
  }
}
