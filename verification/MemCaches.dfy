/** The in-process cache (`memcache/memcache.go`): values with an expiry that is stored but never
    enforced. Each method is one critical section of its mutex. */
module MemCaches {
  import opened Wrappers

  datatype CacheEntry<T> = CacheEntry(value: T, expiresAt: int)

  class MemCache<T> {
    var data: map<string, CacheEntry<T>>

    constructor ()
      ensures data == map[]
    {
      data := map[];
    }

    method Set(key: string, value: T, now: int, expiration: int)
      modifies this
      ensures data == old(data)[key := CacheEntry(value, now + expiration)]
      ensures data == Applied(old(data), Put(key, value, now, expiration))
    {
      var expires := now + expiration;
      data := data[key := CacheEntry(value, expires)];
    }

    /** An expired value is still found: expiry is the reader's business. */
    method Get(key: string) returns (found: Option<CacheEntry<T>>)
      ensures found == Lookup(data, key)
    {
      found := if key in data then Some(data[key]) else None;
    }

    method Del(key: string)
      modifies this
      ensures data == old(data) - {key}
      ensures data == Applied(old(data), Remove(key))
    {
      data := data - {key};
    }
  }

  function Lookup<T>(data: map<string, CacheEntry<T>>, key: string): Option<CacheEntry<T>> {
    if key in data then Some(data[key]) else None
  }

  /* ---- what a sequence of operations leaves ---- */

  datatype Operation<T> = Put(key: string, value: T, now: int, expiration: int) | Remove(key: string)

  function Applied<T>(data: map<string, CacheEntry<T>>, op: Operation<T>): map<string, CacheEntry<T>> {
    match op
    case Put(key, value, now, expiration) => data[key := CacheEntry(value, now + expiration)]
    case Remove(key) => data - {key}
  }

  function Replay<T>(ops: seq<Operation<T>>): map<string, CacheEntry<T>> {
    if ops == [] then map[] else Applied(Replay(ops[..|ops| - 1]), ops[|ops| - 1])
  }

  /** The last operation on the entry's key puts the entry there. */
  ghost predicate LastPut<T(!new)>(ops: seq<Operation<T>>, key: string, entry: CacheEntry<T>, k: nat) {
    && k < |ops| && ops[k].Put? && ops[k].key == key && entry == CacheEntry(ops[k].value, ops[k].now + ops[k].expiration)
    && forall j :: k < j < |ops| ==> ops[j].key != key
  }

  /** After any operations on any keys, and however much later, an entry is found exactly when the last
      operation on its key put it there; other keys never matter. */
  lemma {:induction false} FindsWhatWasLastPut<T(!new)>(ops: seq<Operation<T>>, key: string, entry: CacheEntry<T>)
    ensures Lookup(Replay(ops), key) == Some(entry) <==> exists k: nat :: LastPut(ops, key, entry, k)
  {
    if ops != [] {
      var init, last := ops[..|ops| - 1], ops[|ops| - 1];
      FindsWhatWasLastPut(init, key, entry);
      if last.key != key {
        forall k: nat
          ensures LastPut(ops, key, entry, k) <==> LastPut(init, key, entry, k)
        {
        }
      } else if last.Put? && entry == CacheEntry(last.value, last.now + last.expiration) {
        assert LastPut(ops, key, entry, |ops| - 1);
      }
    }
  }
}
