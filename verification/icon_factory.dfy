/** The flyweight factory (`IconFactory`): one `IconFlyweight` per distinct
    icon key, created on first request by `getOrPut` and shared afterwards.
    Object identity is modelled by a creation serial: two flyweights are the
    same instance exactly when their serials agree. */
module IconFactory {

  /** An `IconFlyweight` wrapping `icon`; `serial` numbers instances in
      creation order. */
  datatype Flyweight<K> = Flyweight(icon: K, serial: nat)

  /** The factory's `icons` map plus the number of flyweights created. */
  datatype Factory<K> = Factory(icons: map<K, Flyweight<K>>, created: nat)

  datatype Lookup<K> = Lookup(factory: Factory<K>, icon: Flyweight<K>)

  /** The factory invariant: every entry wraps its own key, the serials are
      exactly 0 .. created-1, one per entry. */
  ghost predicate Valid<K>(f: Factory<K>) {
    && f.created == |f.icons|
    && (forall k :: k in f.icons ==> f.icons[k].icon == k && f.icons[k].serial < f.created)
    && (forall k, k' :: k in f.icons && k' in f.icons && k != k' ==>
          f.icons[k].serial != f.icons[k'].serial)
  }

  /** The object's initial state: an empty map. */
  function Empty<K>(): (f: Factory<K>)
    ensures Valid(f) && f.icons == map[]
  {
    Factory(map[], 0)
  }

  /** `getIcon`: the cached flyweight for `key`, or a new one stored under
      `key` when there is none. */
  function GetIcon<K>(f: Factory<K>, key: K): (r: Lookup<K>)
    requires Valid(f)
    ensures Valid(r.factory)
    ensures r.icon.icon == key
    ensures key in r.factory.icons && r.factory.icons[key] == r.icon
    ensures key in f.icons ==> r.icon == f.icons[key] && r.factory == f
    ensures key !in f.icons ==>
              r.factory.created == f.created + 1
              && (forall k :: k in f.icons ==> r.icon.serial != f.icons[k].serial)
    ensures r.factory.icons.Keys == f.icons.Keys + {key}
    ensures forall k :: k in f.icons ==> r.factory.icons[k] == f.icons[k]
  {
    if key in f.icons then
      Lookup(f, f.icons[key])
    else
      var made := Flyweight(key, f.created);
      Lookup(Factory(f.icons[key := made], f.created + 1), made)
  }

  /** The distinct keys of a request sequence. */
  function KeySet<K(!new)>(keys: seq<K>): (s: set<K>)
    ensures forall x :: x in s <==> x in keys
    decreases |keys|
  {
    if |keys| == 0 then {} else {keys[0]} + KeySet(keys[1..])
  }

  /** Requests `keys` in order; the factory afterwards. */
  function GetIcons<K(!new)>(f: Factory<K>, keys: seq<K>): (r: Factory<K>)
    requires Valid(f)
    ensures Valid(r)
    ensures r.icons.Keys == f.icons.Keys + KeySet(keys)
    decreases |keys|
  {
    if |keys| == 0 then f
    else
      var g := GetIcon(f, keys[0]).factory;
      var r := GetIcons(g, keys[1..]);
      assert KeySet(keys) == {keys[0]} + KeySet(keys[1..]);
      assert g.icons.Keys == f.icons.Keys + {keys[0]};
      r
  }

  /** No entry is ever replaced or removed: a key present before a run of
      requests maps to the same flyweight after it. */
  lemma {:induction false} EntriesAreKept<K(!new)>(f: Factory<K>, keys: seq<K>, k: K)
    requires Valid(f) && k in f.icons
    ensures k in GetIcons(f, keys).icons && GetIcons(f, keys).icons[k] == f.icons[k]
    decreases |keys|
  {
    if |keys| > 0 {
      EntriesAreKept(GetIcon(f, keys[0]).factory, keys[1..], k);
    }
  }

  /** A repeated request for an equal key hands back the very instance
      created by the first request, and changes nothing. */
  lemma RepeatedRequestSharesInstance<K>(f: Factory<K>, key: K)
    requires Valid(f)
    ensures GetIcon(GetIcon(f, key).factory, key) == GetIcon(f, key)
  {
  }

  /** Starting from an empty factory, the number of flyweights created is
      the number of distinct keys requested. */
  lemma CreatedCountsDistinctKeys<K(!new)>(keys: seq<K>)
    ensures GetIcons(Empty<K>(), keys).created == |KeySet(keys)|
  {
  }
}
