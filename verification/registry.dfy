/** `ComponentStore` of src/page_builder.rs: components keyed by name, plus the
    id counter that `next_id`/`prev_id` move up and down. */
module Registry {
  import opened Wrappers

  /** `xmlData` is kept as text: the source re-parses it on every use. */
  datatype Component = Component(id: int, xmlData: string, cssData: string)

  /** `Component::default()`: no id yet (-1) and empty sources. */
  const DefaultComponent := Component(-1, "", "")

  datatype ComponentStore = ComponentStore(components: map<string, Component>, counter: int)

  /** `ComponentStore::new()`. */
  const EmptyStore := ComponentStore(map[], 0)

  /** A store after a `store_xml`/`store_css` call, and whether the call returned `Ok`. */
  datatype Stored = Stored(store: ComponentStore, ok: bool)

  /** The registry invariant: ids handed out lie below the counter and no two
      components share an assigned id. */
  ghost predicate Valid(s: ComponentStore) {
    && s.counter >= 0
    && (forall k :: k in s.components ==> -1 <= s.components[k].id < s.counter)
    && (forall k1, k2 :: k1 in s.components && k2 in s.components && k1 != k2 && s.components[k1].id != -1
          ==> s.components[k1].id != s.components[k2].id)
  }

  function IdsOf(s: ComponentStore): set<int> {
    set k | k in s.components :: s.components[k].id
  }

  function FindComponent(s: ComponentStore, name: string): (r: Option<Component>)
    ensures r.Some? <==> name in s.components
    ensures r.Some? ==> r.value == s.components[name]
  {
    if name in s.components then Some(s.components[name]) else None
  }

  /** The entry `entry(name).or_default()` yields. */
  function EntryOrDefault(s: ComponentStore, name: string): Component {
    if name in s.components then s.components[name] else DefaultComponent
  }

  /** Claims the reserved counter value `id` for `c` when it has no id yet. */
  function AssignId(c: Component, id: int): Component {
    if c.id == -1 then c.(id := id) else c
  }

  /** `store_xml`: reserves the next id, materialises the entry, then checks that
      `data` parses (`valid` stands for roxmltree). On failure it returns `Err`
      with the counter still advanced and the default entry left in place. */
  function StoreXml(valid: string -> bool, s: ComponentStore, name: string, data: string): (r: Stored)
    ensures r.store.components.Keys == s.components.Keys + {name}
    ensures forall k :: k in s.components && k != name ==> r.store.components[k] == s.components[k]
    ensures r.ok <==> valid(data)
    ensures !r.ok ==> r.store.counter == s.counter + 1
                      && r.store.components[name] == EntryOrDefault(s, name)
    ensures r.ok ==> r.store.components[name].xmlData == data
                     && r.store.components[name].cssData == EntryOrDefault(s, name).cssData
    ensures r.ok && EntryOrDefault(s, name).id == -1 ==>
              r.store.components[name].id == s.counter && r.store.counter == s.counter + 1
    ensures r.ok && EntryOrDefault(s, name).id != -1 ==>
              r.store.components[name].id == s.components[name].id && r.store.counter == s.counter
  {
    var c := EntryOrDefault(s, name);
    if !valid(data) then
      Stored(ComponentStore(s.components[name := c], s.counter + 1), false)
    else
      var c' := AssignId(c, s.counter).(xmlData := data);
      Stored(ComponentStore(s.components[name := c'], if c.id == -1 then s.counter + 1 else s.counter), true)
  }

  /** `store_css`: as `store_xml` without the parse check, so it always returns `Ok`. */
  function StoreCss(s: ComponentStore, name: string, data: string): (r: Stored)
    ensures r.ok
    ensures r.store.components.Keys == s.components.Keys + {name}
    ensures forall k :: k in s.components && k != name ==> r.store.components[k] == s.components[k]
    ensures r.store.components[name].cssData == data
    ensures r.store.components[name].xmlData == EntryOrDefault(s, name).xmlData
    ensures EntryOrDefault(s, name).id == -1 ==>
              r.store.components[name].id == s.counter && r.store.counter == s.counter + 1
    ensures EntryOrDefault(s, name).id != -1 ==>
              r.store.components[name].id == s.components[name].id && r.store.counter == s.counter
  {
    var c := EntryOrDefault(s, name);
    var c' := AssignId(c, s.counter).(cssData := data);
    Stored(ComponentStore(s.components[name := c'], if c.id == -1 then s.counter + 1 else s.counter), true)
  }

  /** The invariant survives `store_xml`, whether it succeeds or fails. */
  lemma StoreXmlValid(valid: string -> bool, s: ComponentStore, name: string, data: string)
    requires Valid(s)
    ensures Valid(StoreXml(valid, s, name, data).store)
  {
    var r := StoreXml(valid, s, name, data).store;
    forall k1, k2 | k1 in r.components && k2 in r.components && k1 != k2 && r.components[k1].id != -1
      ensures r.components[k1].id != r.components[k2].id
    {
      if k1 == name || k2 == name {
        var other := if k1 == name then k2 else k1;
        assert r.components[other] == s.components[other];
      }
    }
  }

  /** The invariant survives `store_css`. */
  lemma StoreCssValid(s: ComponentStore, name: string, data: string)
    requires Valid(s)
    ensures Valid(StoreCss(s, name, data).store)
  {
    var r := StoreCss(s, name, data).store;
    forall k1, k2 | k1 in r.components && k2 in r.components && k1 != k2 && r.components[k1].id != -1
      ensures r.components[k1].id != r.components[k2].id
    {
      if k1 == name || k2 == name {
        var other := if k1 == name then k2 else k1;
        assert r.components[other] == s.components[other];
      }
    }
  }

  /** One registration call: `store_xml` or `store_css` with a name and file contents. */
  datatype Registration = RegisterXml(name: string, data: string) | RegisterCss(name: string, data: string)

  function Register(valid: string -> bool, s: ComponentStore, op: Registration): Stored {
    match op
    case RegisterXml(name, data) => StoreXml(valid, s, name, data)
    case RegisterCss(name, data) => StoreCss(s, name, data)
  }

  /** The store after a run of registrations, whatever each one returned. */
  function RegisterAll(valid: string -> bool, s: ComponentStore, ops: seq<Registration>): (r: ComponentStore)
    ensures s.components.Keys <= r.components.Keys
    decreases |ops|
  {
    if ops == [] then s else RegisterAll(valid, Register(valid, s, ops[0]).store, ops[1..])
  }

  lemma RegisterValid(valid: string -> bool, s: ComponentStore, op: Registration)
    requires Valid(s)
    ensures Valid(Register(valid, s, op).store)
    ensures Register(valid, s, op).store.counter >= s.counter
  {
    match op
    case RegisterXml(name, data) => StoreXmlValid(valid, s, name, data);
    case RegisterCss(name, data) => StoreCssValid(s, name, data);
  }

  /** Starting from an empty store, any run of registrations keeps the ids of
      distinct names distinct. */
  lemma {:induction false} RegisterAllValid(valid: string -> bool, s: ComponentStore, ops: seq<Registration>)
    requires Valid(s)
    ensures Valid(RegisterAll(valid, s, ops))
    ensures RegisterAll(valid, s, ops).counter >= s.counter
    decreases |ops|
  {
    if ops != [] {
      RegisterValid(valid, s, ops[0]);
      RegisterAllValid(valid, Register(valid, s, ops[0]).store, ops[1..]);
    }
  }

  /** Once a name holds an id it keeps it through any run of registrations. */
  lemma {:induction false} RegisterAllKeepsIds(valid: string -> bool, s: ComponentStore, ops: seq<Registration>, a: string)
    requires a in s.components && s.components[a].id != -1
    ensures a in RegisterAll(valid, s, ops).components
    ensures RegisterAll(valid, s, ops).components[a].id == s.components[a].id
    decreases |ops|
  {
    if ops != [] {
      RegisterAllKeepsIds(valid, Register(valid, s, ops[0]).store, ops[1..], a);
    }
  }

  /** Ids follow first-registration order: a name that obtains its id after
      `a` already holds one gets a larger id. */
  lemma {:induction false} LaterRegistrationGetsLargerId(valid: string -> bool, s: ComponentStore,
                                                         ops: seq<Registration>, a: string, b: string)
    requires Valid(s)
    requires a in s.components && s.components[a].id != -1
    requires EntryOrDefault(s, b).id == -1
    requires b in RegisterAll(valid, s, ops).components && RegisterAll(valid, s, ops).components[b].id != -1
    ensures RegisterAll(valid, s, ops).components[a].id < RegisterAll(valid, s, ops).components[b].id
    decreases |ops|
  {
    assert ops != [];
    var s1 := Register(valid, s, ops[0]).store;
    RegisterValid(valid, s, ops[0]);
    assert a in s1.components && s1.components[a].id == s.components[a].id;
    if EntryOrDefault(s1, b).id == -1 {
      LaterRegistrationGetsLargerId(valid, s1, ops[1..], a, b);
    } else {
      assert s1.components[b].id == s.counter;
      RegisterAllKeepsIds(valid, s1, ops[1..], a);
      RegisterAllKeepsIds(valid, s1, ops[1..], b);
    }
  }

  /** `find_component_by_id`: a linear scan over the map's values. HashMap
      iteration order is unspecified, so it is the parameter `order`, which
      lists the keys. */
  method FindComponentById(s: ComponentStore, order: seq<string>, id: int) returns (r: Option<Component>)
    requires forall k :: k in order <==> k in s.components
    ensures r.Some? ==> r.value.id == id && r.value in s.components.Values
    ensures r.None? <==> forall k :: k in s.components ==> s.components[k].id != id
    ensures Valid(s) && id != -1 && r.Some? ==>
              forall k :: k in s.components && s.components[k].id == id ==> s.components[k] == r.value
  {
    var i := 0;
    while i < |order|
      invariant 0 <= i <= |order|
      invariant forall j :: 0 <= j < i ==> s.components[order[j]].id != id
    {
      var c := s.components[order[i]];
      if c.id == id {
        return Some(c);
      }
      i := i + 1;
    }
    return None;
  }
}
