/** The expiring store behind the cached REST client (yuyo/cached_rest.py).
  * A `TimeLimitedMapping` keeps its entries in insertion order, each
  * stamped with the clock reading at which it was set; a sweep drops
  * expired entries from the front and stops at the first fresh one. The
  * clock is an integer passed in as `now`. */
module CachedRest {
  import opened Wrappers

  type Snowflake = nat

  /** One stored value with the time it was set. */
  datatype Entry<K, V> = Entry(key: K, stamp: int, value: V)

  function KeysOf<K(==), V>(es: seq<Entry<K, V>>): (r: seq<K>)
    ensures |r| == |es| && forall i :: 0 <= i < |es| ==> r[i] == es[i].key
  {
    if es == [] then [] else [es[0].key] + KeysOf(es[1..])
  }

  /** No key is stored twice. */
  ghost predicate DistinctKeys<K, V>(es: seq<Entry<K, V>>)
  {
    forall i, j :: 0 <= i < j < |es| ==> es[i].key != es[j].key
  }

  /** Stamps never decrease from front to back. */
  ghost predicate Ordered<K, V>(es: seq<Entry<K, V>>)
  {
    forall i, j :: 0 <= i < j < |es| ==> es[i].stamp <= es[j].stamp
  }

  /** Every stamp is at most `now`. */
  ghost predicate NotAfter<K, V>(es: seq<Entry<K, V>>, now: int)
  {
    forall i :: 0 <= i < |es| ==> es[i].stamp <= now
  }

  /** Where `key` is stored, or `|es|` when it is not. */
  function IndexOf<K(==), V>(es: seq<Entry<K, V>>, key: K): (i: nat)
    ensures i <= |es| && (i < |es| ==> es[i].key == key)
    ensures forall j :: 0 <= j < i ==> es[j].key != key
    ensures i < |es| <==> key in KeysOf(es)
  {
    if es == [] then 0
    else if es[0].key == key then 0
    else
      assert KeysOf(es) == [es[0].key] + KeysOf(es[1..]);
      1 + IndexOf(es[1..], key)
  }

  /** The value stored under `key`, if any. */
  function Lookup<K(==), V>(es: seq<Entry<K, V>>, key: K): (r: Option<V>)
    ensures r.Some? <==> key in KeysOf(es)
    ensures DistinctKeys(es) ==> forall i :: 0 <= i < |es| && es[i].key == key ==> r == Some(es[i].value)
  {
    var i := IndexOf(es, key);
    if i < |es| then Some(es[i].value) else None
  }

  /** The entries without the one stored under `key` (`del`), order kept. */
  function Without<K(==), V>(es: seq<Entry<K, V>>, key: K): (r: seq<Entry<K, V>>)
    ensures key !in KeysOf(es) ==> r == es
    ensures key in KeysOf(es) ==> |r| == |es| - 1
  {
    var i := IndexOf(es, key);
    if i < |es| then es[..i] + es[i + 1..] else es
  }

  /** The sweep `gc` makes at `now`: entries at least `expiry` old are
    * dropped from the front until the first younger one. */
  function DropExpired<K, V>(es: seq<Entry<K, V>>, now: int, expiry: int): (r: seq<Entry<K, V>>)
    ensures |r| <= |es| && r == es[|es| - |r|..]
    ensures forall i :: 0 <= i < |es| - |r| ==> now - es[i].stamp >= expiry
    ensures r != [] ==> now - r[0].stamp < expiry
  {
    if es == [] || now - es[0].stamp < expiry then es
    else
      var r := DropExpired(es[1..], now, expiry);
      assert es[1..][|es[1..]| - |r|..] == es[|es| - |r|..];
      r
  }

  /** `__setitem__` at `now`: a sweep; then, when the key is stored, its
    * removal (which sweeps again); then the key at the end, stamped `now`. */
  function SetEntries<K(==), V>(es: seq<Entry<K, V>>, key: K, value: V, now: int, expiry: int): (r: seq<Entry<K, V>>)
    ensures |r| > 0 && r[|r| - 1] == Entry(key, now, value) && |r| <= |es| + 1
    ensures forall i :: 0 <= i < |r| - 1 ==> r[i] in es
  {
    var swept := DropExpired(es, now, expiry);
    var kept := if key in KeysOf(swept) then DropExpired(Without(swept, key), now, expiry) else swept;
    kept + [Entry(key, now, value)]
  }

  /** The plain key-to-value map `copy` returns. */
  function ToMap<K(==), V>(es: seq<Entry<K, V>>): (m: map<K, V>)
    ensures m.Keys == set i | 0 <= i < |es| :: es[i].key
  {
    if es == [] then map[]
    else
      var last := es[|es| - 1];
      var init := es[..|es| - 1];
      var m := ToMap(init)[last.key := last.value];
      assert forall i :: 0 <= i < |init| ==> init[i] == es[i];
      m
  }

  lemma {:induction false} ToMapValues<K, V>(es: seq<Entry<K, V>>)
    requires DistinctKeys(es)
    ensures forall i :: 0 <= i < |es| ==> ToMap(es)[es[i].key] == es[i].value
  {
    if es != [] {
      var init := es[..|es| - 1];
      ToMapValues(init);
      forall i | 0 <= i < |es|
        ensures ToMap(es)[es[i].key] == es[i].value
      {
        if i < |es| - 1 {
          assert init[i] == es[i];
        }
      }
    }
  }

  // ---------------------------------------------------------------------
  // Properties of the store

  /** A tail of the entries keeps their order, distinctness and bound. */
  lemma SuffixKeeps<K, V>(es: seq<Entry<K, V>>, k: nat, now: int)
    requires k <= |es|
    ensures Ordered(es) ==> Ordered(es[k..])
    ensures NotAfter(es, now) ==> NotAfter(es[k..], now)
    ensures DistinctKeys(es) ==> DistinctKeys(es[k..])
    ensures forall i :: 0 <= i < |es| - k ==> es[k..][i] == es[k + i]
  {
  }

  /** Where each remaining entry sat before `key` was removed. */
  lemma WithoutShifts<K, V>(es: seq<Entry<K, V>>, key: K)
    requires key in KeysOf(es)
    ensures |Without(es, key)| == |es| - 1
    ensures forall j :: 0 <= j < IndexOf(es, key) ==> Without(es, key)[j] == es[j]
    ensures forall j :: IndexOf(es, key) <= j < |es| - 1 ==> Without(es, key)[j] == es[j + 1]
  {
    var i := IndexOf(es, key);
    var r := Without(es, key);
    var front, back := es[..i], es[i + 1..];
    assert r == front + back;
    forall j | 0 <= j < i
      ensures r[j] == es[j]
    {
      assert r[j] == front[j];
    }
    forall j | i <= j < |es| - 1
      ensures r[j] == es[j + 1]
    {
      assert r[j] == back[j - i];
    }
  }

  /** Removing a key keeps the order and bound of the rest. */
  lemma WithoutKeepsOrder<K, V>(es: seq<Entry<K, V>>, key: K, now: int)
    requires Ordered(es) && NotAfter(es, now)
    ensures Ordered(Without(es, key)) && NotAfter(Without(es, key), now)
  {
    if key in KeysOf(es) {
      WithoutShifts(es, key);
    }
  }

  /** Removing a key from distinct keys leaves them distinct, without it. */
  lemma WithoutKeepsDistinct<K, V>(es: seq<Entry<K, V>>, key: K)
    requires DistinctKeys(es)
    ensures DistinctKeys(Without(es, key)) && key !in KeysOf(Without(es, key))
  {
    if key in KeysOf(es) {
      WithoutShifts(es, key);
      var r := Without(es, key);
      var i := IndexOf(es, key);
      forall j | 0 <= j < |r|
        ensures KeysOf(r)[j] != key
      {
        assert KeysOf(r)[j] == r[j].key;
      }
    }
  }

  /** Removing a key from distinct keys leaves every other key's value. */
  lemma WithoutKeepsOthers<K, V>(es: seq<Entry<K, V>>, key: K, k: K)
    requires DistinctKeys(es) && k != key
    ensures Lookup(Without(es, key), k) == Lookup(es, k)
  {
    if key in KeysOf(es) {
      WithoutKeepsDistinct(es, key);
      if k in KeysOf(es) {
        WithoutKeepsStored(es, key, k);
      } else {
        WithoutKeepsAbsent(es, key, k);
      }
    }
  }

  lemma WithoutKeepsStored<K, V>(es: seq<Entry<K, V>>, key: K, k: K)
    requires key in KeysOf(es) && k in KeysOf(es) && k != key
    ensures exists b :: 0 <= b < |Without(es, key)| && Without(es, key)[b] == es[IndexOf(es, k)]
  {
    WithoutShifts(es, key);
    var a := IndexOf(es, k);
    var b := if a < IndexOf(es, key) then a else a - 1;
    assert Without(es, key)[b] == es[a];
  }

  lemma WithoutKeepsAbsent<K, V>(es: seq<Entry<K, V>>, key: K, k: K)
    requires key in KeysOf(es) && k !in KeysOf(es)
    ensures k !in KeysOf(Without(es, key))
  {
    WithoutShifts(es, key);
    var r := Without(es, key);
    forall b | 0 <= b < |r|
      ensures KeysOf(r)[b] != k
    {
      assert KeysOf(r)[b] == r[b].key;
      assert KeysOf(es)[b] == es[b].key && KeysOf(es)[b + 1] == es[b + 1].key;
    }
  }

  /** In a store whose stamps are in order, a sweep leaves only entries
    * younger than the expiry (and drops only entries that are not). */
  lemma GcLeavesFresh<K, V>(es: seq<Entry<K, V>>, now: int, expiry: int)
    requires Ordered(es)
    ensures var r := DropExpired(es, now, expiry);
      forall i :: 0 <= i < |r| ==> now - r[i].stamp < expiry
  {
    var r := DropExpired(es, now, expiry);
    var k := |es| - |r|;
    forall i | 0 <= i < |r|
      ensures now - r[i].stamp < expiry
    {
      assert r[0] == es[k] && r[i] == es[k + i];
    }
  }

  /** Appending a key not yet stored, stamped `now`, keeps the order,
    * distinctness and bound. */
  lemma AppendKeeps<K, V>(es: seq<Entry<K, V>>, key: K, value: V, now: int)
    requires Ordered(es) && NotAfter(es, now) && DistinctKeys(es) && key !in KeysOf(es)
    ensures var r := es + [Entry(key, now, value)];
      Ordered(r) && NotAfter(r, now) && DistinctKeys(r)
  {
    var r := es + [Entry(key, now, value)];
    forall i, j | 0 <= i < j < |r|
      ensures r[i].key != r[j].key
    {
      if j == |es| {
        assert KeysOf(es)[i] == es[i].key;
      }
    }
  }

  /** A sweep keeps the order, distinctness and bound of what it leaves,
    * and adds no key. */
  lemma DropKeeps<K, V>(es: seq<Entry<K, V>>, now: int, expiry: int, bound: int, key: K)
    ensures Ordered(es) ==> Ordered(DropExpired(es, now, expiry))
    ensures NotAfter(es, bound) ==> NotAfter(DropExpired(es, now, expiry), bound)
    ensures DistinctKeys(es) ==> DistinctKeys(DropExpired(es, now, expiry))
    ensures key !in KeysOf(es) ==> key !in KeysOf(DropExpired(es, now, expiry))
  {
    var r := DropExpired(es, now, expiry);
    var off := |es| - |r|;
    SuffixKeeps(es, off, bound);
    if key !in KeysOf(es) {
      DropKeepsAbsent(es, r, off, key);
    }
  }

  lemma DropKeepsAbsent<K, V>(es: seq<Entry<K, V>>, r: seq<Entry<K, V>>, off: nat, key: K)
    requires off <= |es| && r == es[off..] && key !in KeysOf(es)
    ensures key !in KeysOf(r)
  {
    forall b | 0 <= b < |r|
      ensures KeysOf(r)[b] != key
    {
      assert KeysOf(r)[b] == r[b].key == es[off + b].key == KeysOf(es)[off + b];
    }
  }

  /** Setting at a clock reading no earlier than any stamp keeps the stamps
    * in insertion order and the keys distinct. */
  lemma SetKeepsOrder<K, V>(es: seq<Entry<K, V>>, key: K, value: V, now: int, expiry: int)
    requires Ordered(es) && NotAfter(es, now) && DistinctKeys(es)
    ensures var r := SetEntries(es, key, value, now, expiry);
      Ordered(r) && NotAfter(r, now) && DistinctKeys(r)
  {
    var swept := DropExpired(es, now, expiry);
    DropKeeps(es, now, expiry, now, key);
    if key in KeysOf(swept) {
      var w := Without(swept, key);
      WithoutKeepsOrder(swept, key, now);
      WithoutKeepsDistinct(swept, key);
      DropKeeps(w, now, expiry, now, key);
      AppendKeeps(DropExpired(w, now, expiry), key, value, now);
    } else {
      AppendKeeps(swept, key, value, now);
    }
  }

  /** When every entry is younger than the expiry, the sweep after a
    * removal drops nothing. */
  lemma SecondSweepKeeps<K, V>(swept: seq<Entry<K, V>>, key: K, now: int, expiry: int)
    requires forall i :: 0 <= i < |swept| ==> now - swept[i].stamp < expiry
    ensures DropExpired(Without(swept, key), now, expiry) == Without(swept, key)
  {
    var w := Without(swept, key);
    if key in KeysOf(swept) && w != [] {
      WithoutShifts(swept, key);
      assert w[0] == swept[0] || w[0] == swept[1];
    }
  }

  /** A key appended after the others, none of which has it, is found with
    * the appended value. */
  lemma LookupAppended<K, V>(w: seq<Entry<K, V>>, key: K, value: V, now: int)
    requires key !in KeysOf(w)
    ensures Lookup(w + [Entry(key, now, value)], key) == Some(value)
  {
    var r := w + [Entry(key, now, value)];
    var j := IndexOf(r, key);
    assert r[|w|].key == key;
  }

  /** In a store with ordered stamps the second sweep of `__setitem__`
    * drops nothing. */
  lemma SetEntriesShape<K, V>(es: seq<Entry<K, V>>, key: K, value: V, now: int, expiry: int)
    requires Ordered(es)
    ensures SetEntries(es, key, value, now, expiry) == Without(DropExpired(es, now, expiry), key) + [Entry(key, now, value)]
  {
    var swept := DropExpired(es, now, expiry);
    GcLeavesFresh(es, now, expiry);
    SecondSweepKeeps(swept, key, now, expiry);
  }

  /** After `__setitem__` the key holds the new value at the end of the
    * order, stamped `now`; in a store with ordered stamps the second sweep
    * drops nothing, so the rest is the swept store without the key. */
  lemma SetPutsKeyLast<K, V>(es: seq<Entry<K, V>>, key: K, value: V, now: int, expiry: int)
    requires Ordered(es) && DistinctKeys(es)
    ensures var r := SetEntries(es, key, value, now, expiry);
      |r| > 0 && r[|r| - 1] == Entry(key, now, value) && Lookup(r, key) == Some(value) &&
      r == Without(DropExpired(es, now, expiry), key) + [Entry(key, now, value)]
  {
    var swept := DropExpired(es, now, expiry);
    SetEntriesShape(es, key, value, now, expiry);
    DropKeeps(es, now, expiry, 0, key);
    WithoutKeepsDistinct(swept, key);
    LookupAppended(Without(swept, key), key, value, now);
  }

  // ---------------------------------------------------------------------
  // TimeLimitedMapping

  class TimeLimitedMapping<K(==), V> {
    var entries: seq<Entry<K, V>>
    /** Seconds after which an entry is dropped. */
    const expiry: int

    ghost predicate Valid()
      reads this
    {
      DistinctKeys(entries)
    }

    constructor (expiry: int)
      ensures Valid() && entries == [] && this.expiry == expiry
    {
      entries := [];
      this.expiry := expiry;
    }

    /** `__len__`. */
    function Len(): (n: nat)
      reads this
      ensures n == |entries|
    {
      |entries|
    }

    /** `__getitem__`: the value, without refreshing its stamp; KeyError
      * when the key is not stored. */
    function Get(key: K): (r: Result<V>)
      reads this
      requires Valid()
      ensures r.Failure? <==> key !in KeysOf(entries)
      ensures r.Failure? ==> r.error == KeyError
      ensures forall i :: 0 <= i < |entries| && entries[i].key == key ==> r == Success(entries[i].value)
    {
      match Lookup(entries, key)
      case None => Failure(KeyError)
      case Some(v) => Success(v)
    }

    /** `gc`: drops entries from the front while they are at least
      * `expiry` old. */
    method Gc(now: int)
      requires Valid()
      modifies this
      ensures Valid() && entries == DropExpired(old(entries), now, expiry)
    {
      while entries != [] && now - entries[0].stamp >= expiry
        invariant Valid()
        invariant DropExpired(entries, now, expiry) == DropExpired(old(entries), now, expiry)
        decreases |entries|
      {
        SuffixKeeps(entries, 1, 0);
        entries := entries[1..];
      }
    }

    /** `__delitem__`: KeyError with nothing changed when the key is not
      * stored; otherwise the entry is removed and a sweep follows. */
    method Delete(key: K, now: int) returns (r: Result<Unit>)
      requires Valid()
      modifies this
      ensures Valid()
      ensures r.Failure? <==> key !in KeysOf(old(entries))
      ensures r.Failure? ==> r.error == KeyError && entries == old(entries)
      ensures r.Success? ==> entries == DropExpired(Without(old(entries), key), now, expiry)
    {
      if key !in KeysOf(entries) {
        return Failure(KeyError);
      }
      WithoutKeepsDistinct(entries, key);
      entries := Without(entries, key);
      Gc(now);
      r := Success(Unit);
    }

    /** `__setitem__`. */
    method Set(key: K, value: V, now: int)
      requires Valid()
      modifies this
      ensures Valid() && entries == SetEntries(old(entries), key, value, now, expiry)
    {
      Gc(now);
      if key in KeysOf(entries) {
        WithoutKeepsDistinct(entries, key);
        DropKeeps(Without(entries, key), now, expiry, now, key);
        var _ := Delete(key, now);
      }
      NoKeyAppendDistinct(entries, key, value, now);
      entries := entries + [Entry(key, now, value)];
    }

    /** `clear`. */
    method Clear()
      modifies this
      ensures Valid() && entries == []
    {
      entries := [];
    }

    /** `copy`: a plain map of the stored keys to their values. */
    function Copy(): (m: map<K, V>)
      reads this
      requires Valid()
      ensures m.Keys == set i | 0 <= i < |entries| :: entries[i].key
      ensures forall i :: 0 <= i < |entries| ==> m[entries[i].key] == entries[i].value
    {
      ToMapValues(entries);
      ToMap(entries)
    }
  }

  lemma NoKeyAppendDistinct<K, V>(es: seq<Entry<K, V>>, key: K, value: V, now: int)
    requires DistinctKeys(es) && key !in KeysOf(es)
    ensures DistinctKeys(es + [Entry(key, now, value)])
  {
    var r := es + [Entry(key, now, value)];
    forall i, j | 0 <= i < j < |r|
      ensures r[i].key != r[j].key
    {
      if j == |es| {
        assert KeysOf(es)[i] == es[i].key;
      }
    }
  }

  // ---------------------------------------------------------------------
  // CachedREST

  /** The stores of `CachedREST` (values are the fetched objects, by
    * identity) and the cached own user with the time it was fetched. */
  class CachedRest {
    const channelStore: TimeLimitedMapping<Snowflake, nat>
    const emojiStore: TimeLimitedMapping<Snowflake, nat>
    const guildStore: TimeLimitedMapping<Snowflake, nat>
    const inviteStore: TimeLimitedMapping<string, nat>
    const memberStore: TimeLimitedMapping<string, nat>
    const messageStore: TimeLimitedMapping<Snowflake, nat>
    const roleStore: TimeLimitedMapping<Snowflake, nat>
    const userStore: TimeLimitedMapping<Snowflake, nat>
    var me: Option<nat>
    var meStateTime: int
    const meExpire: int

    /** `__init__`: an empty store per kind of object, each with its own
      * expiry, and no own user. */
    constructor (channelExpire: int, emojiExpire: int, guildExpire: int, inviteExpire: int, meExpire: int,
                 memberExpire: int, messageExpire: int, roleExpire: int, userExpire: int)
      ensures fresh(channelStore) && channelStore.entries == [] && channelStore.expiry == channelExpire
      ensures fresh(emojiStore) && emojiStore.entries == [] && emojiStore.expiry == emojiExpire
      ensures fresh(guildStore) && guildStore.entries == [] && guildStore.expiry == guildExpire
      ensures fresh(inviteStore) && inviteStore.entries == [] && inviteStore.expiry == inviteExpire
      ensures fresh(memberStore) && memberStore.entries == [] && memberStore.expiry == memberExpire
      ensures fresh(messageStore) && messageStore.entries == [] && messageStore.expiry == messageExpire
      ensures fresh(roleStore) && roleStore.entries == [] && roleStore.expiry == roleExpire
      ensures fresh(userStore) && userStore.entries == [] && userStore.expiry == userExpire
      ensures me.None? && meStateTime == 0 && this.meExpire == meExpire
      ensures Valid()
    {
      emojiStore := new TimeLimitedMapping(emojiExpire);
      channelStore := new TimeLimitedMapping(channelExpire);
      guildStore := new TimeLimitedMapping(guildExpire);
      inviteStore := new TimeLimitedMapping(inviteExpire);
      me := None;
      this.meExpire := meExpire;
      meStateTime := 0;
      memberStore := new TimeLimitedMapping(memberExpire);
      messageStore := new TimeLimitedMapping(messageExpire);
      roleStore := new TimeLimitedMapping(roleExpire);
      userStore := new TimeLimitedMapping(userExpire);
    }

    /** Every store is a store of its own. */
    ghost predicate Valid()
      reads this, channelStore, emojiStore, guildStore, inviteStore, memberStore, messageStore, roleStore, userStore
    {
      channelStore.Valid() && emojiStore.Valid() && guildStore.Valid() && inviteStore.Valid() &&
      memberStore.Valid() && messageStore.Valid() && roleStore.Valid() && userStore.Valid() &&
      channelStore as object != emojiStore && channelStore as object != guildStore &&
      channelStore as object != inviteStore && channelStore as object != memberStore &&
      channelStore as object != messageStore && channelStore as object != roleStore &&
      channelStore as object != userStore && emojiStore as object != guildStore &&
      emojiStore as object != inviteStore && emojiStore as object != memberStore &&
      emojiStore as object != messageStore && emojiStore as object != roleStore &&
      emojiStore as object != userStore && guildStore as object != inviteStore &&
      guildStore as object != memberStore && guildStore as object != messageStore &&
      guildStore as object != roleStore && guildStore as object != userStore &&
      inviteStore as object != memberStore && inviteStore as object != messageStore &&
      inviteStore as object != roleStore && inviteStore as object != userStore &&
      memberStore as object != messageStore && memberStore as object != roleStore &&
      memberStore as object != userStore && messageStore as object != roleStore &&
      messageStore as object != userStore && roleStore as object != userStore
    }

    /** `_me_store_is_old`: the own user is at least `meExpire` old. */
    function MeStoreIsOld(now: int): (r: bool)
      reads this
      ensures r <==> meStateTime + meExpire <= now
    {
      now - meStateTime >= meExpire
    }

    /** `clear`: every store emptied and the own user forgotten. */
    method Clear()
      requires Valid()
      modifies this, channelStore, emojiStore, guildStore, inviteStore, memberStore, messageStore, roleStore,
        userStore
      ensures me.None? && meStateTime == old(meStateTime)
      ensures channelStore.entries == [] && emojiStore.entries == [] && guildStore.entries == []
      ensures inviteStore.entries == [] && memberStore.entries == [] && messageStore.entries == []
      ensures roleStore.entries == [] && userStore.entries == []
      ensures Valid()
    {
      channelStore.Clear();
      emojiStore.Clear();
      guildStore.Clear();
      inviteStore.Clear();
      me := None;
      memberStore.Clear();
      messageStore.Clear();
      roleStore.Clear();
      userStore.Clear();
    }

    /** `gc`: every store swept at `now`, and the own user forgotten once
      * old. */
    method Gc(now: int)
      requires Valid()
      modifies this, channelStore, emojiStore, guildStore, inviteStore, memberStore, messageStore, roleStore,
        userStore
      ensures Valid()
      ensures channelStore.entries == DropExpired(old(channelStore.entries), now, channelStore.expiry)
      ensures emojiStore.entries == DropExpired(old(emojiStore.entries), now, emojiStore.expiry)
      ensures guildStore.entries == DropExpired(old(guildStore.entries), now, guildStore.expiry)
      ensures inviteStore.entries == DropExpired(old(inviteStore.entries), now, inviteStore.expiry)
      ensures memberStore.entries == DropExpired(old(memberStore.entries), now, memberStore.expiry)
      ensures messageStore.entries == DropExpired(old(messageStore.entries), now, messageStore.expiry)
      ensures roleStore.entries == DropExpired(old(roleStore.entries), now, roleStore.expiry)
      ensures userStore.entries == DropExpired(old(userStore.entries), now, userStore.expiry)
      ensures me == (if old(MeStoreIsOld(now)) then None else old(me)) && meStateTime == old(meStateTime)
    {
      channelStore.Gc(now);
      emojiStore.Gc(now);
      guildStore.Gc(now);
      inviteStore.Gc(now);
      GcMe(now);
      memberStore.Gc(now);
      messageStore.Gc(now);
      roleStore.Gc(now);
      userStore.Gc(now);
    }

    /** The own-user step of `gc`: forgotten once old. */
    method GcMe(now: int)
      modifies this
      ensures me == (if old(MeStoreIsOld(now)) then None else old(me)) && meStateTime == old(meStateTime)
    {
      if MeStoreIsOld(now) {
        me := None;
      }
    }
  }
}
