/**
 * The string key-value store behind `StringRedisTemplate.opsForValue()`, as
 * far as the captcha service uses it: SET with NX and a time-to-live, GET and
 * DEL. Time is an integer clock in seconds that only `Advance` moves; a
 * binding whose deadline has passed is dropped at that moment, so every
 * binding the store holds is live.
 */
module RedisStore {
  import opened Results

  /** A stored string and the second at which it stops being live. */
  datatype Binding = Binding(value: string, expiresAt: int)

  /** The bindings of m still live at time t. */
  function Purge(m: map<string, Binding>, t: int): (r: map<string, Binding>)
    ensures forall k :: k in r <==> k in m && m[k].expiresAt > t
    ensures forall k :: k in r ==> r[k] == m[k]
  {
    map k | k in m && m[k].expiresAt > t :: m[k]
  }

  /** The key-to-string view a client of the store observes. */
  function Values(m: map<string, Binding>): (r: map<string, string>)
    ensures r.Keys == m.Keys
    ensures forall k :: k in r ==> r[k] == m[k].value
  {
    map k | k in m :: m[k].value
  }

  class Store {
    var now: int
    var entries: map<string, Binding>
    /** Round trips made to the store so far. */
    ghost var trips: nat

    /** Every binding held has not yet expired. */
    predicate Valid()
      reads this
    {
      forall k :: k in entries ==> entries[k].expiresAt > now
    }

    /** What GET would answer for each key. */
    function Contents(): map<string, string>
      reads this
    {
      Values(entries)
    }

    constructor ()
      ensures Valid() && now == 0 && entries == map[] && trips == 0
    {
      now := 0;
      entries := map[];
      trips := 0;
    }

    /**
     * SET key value EX ttl NX: binds key only if it holds nothing, and
     * answers whether it did.
     */
    method SetIfAbsent(key: string, value: string, ttl: int) returns (ok: bool)
      requires Valid() && ttl > 0
      modifies this`entries, this`trips
      ensures Valid() && trips == old(trips) + 1
      ensures ok <==> key !in old(entries)
      ensures entries == if ok then old(entries)[key := Binding(value, now + ttl)] else old(entries)
    {
      trips := trips + 1;
      ok := key !in entries;
      if ok {
        entries := entries[key := Binding(value, now + ttl)];
      }
    }

    /** GET key: the live value, or nil. Changes no binding. */
    method Get(key: string) returns (v: Option<string>)
      requires Valid()
      modifies this`trips
      ensures trips == old(trips) + 1
      ensures v.Some? <==> key in Contents()
      ensures v.Some? ==> v.value == Contents()[key]
    {
      trips := trips + 1;
      if key in entries {
        v := Some(entries[key].value);
      } else {
        v := None;
      }
    }

    /** DEL key: removes the binding if there is one; answers whether it did. */
    method Delete(key: string) returns (removed: bool)
      requires Valid()
      modifies this`entries, this`trips
      ensures Valid() && trips == old(trips) + 1
      ensures removed <==> key in old(entries)
      ensures entries == old(entries) - {key}
    {
      trips := trips + 1;
      removed := key in entries;
      entries := entries - {key};
    }

    /** The clock moves on; every binding whose deadline is reached disappears. */
    method Advance(seconds: nat)
      requires Valid()
      modifies this`now, this`entries
      ensures Valid()
      ensures now == old(now) + seconds
      ensures entries == Purge(old(entries), now)
    {
      now := now + seconds;
      entries := Purge(entries, now);
    }
  }

  /**
   * A binding made at time t with time-to-live ttl is still there s seconds
   * later exactly when s < ttl.
   */
  lemma {:induction false} LiveForTtl(m: map<string, Binding>, key: string, value: string, t: int, ttl: int, s: nat)
    requires ttl > 0
    ensures key in Purge(m[key := Binding(value, t + ttl)], t + s) <==> s < ttl
    ensures s < ttl ==> Values(Purge(m[key := Binding(value, t + ttl)], t + s))[key] == value
  {
    var m' := m[key := Binding(value, t + ttl)];
    assert m'[key].expiresAt == t + ttl;
  }
}
