/**
 * The type index and the secondary property indexes (src/storage/local.rs), and the lookup of
 * src/storage/mod.rs that drops ids of deleted nodes. Deleting a node leaves its property
 * entries behind; updating a node does not touch them.
 */
module PropertyIndex {
  import opened Wrappers
  import opened Values
  import opened IndexKeys

  type Id = string

  datatype Node = Node(nodeType: string, properties: Properties)

  /**
   * `rows` are the ids with an index record and a payload row: not evicted, not legacy-only.
   * The two multimaps are sets of (key, id) pairs.
   */
  datatype Store = Store(nodes: map<Id, Node>, rows: set<Id>, types: set<(string, Id)>,
                         entries: set<(string, Id)>, registry: set<string>)

  const EMPTY: Store := Store(map[], {}, {}, {}, {})

  // ---------- the operations ----------

  /** The fields registered for a type, read off the registry keys. */
  function IndexedFields(registry: set<string>, ty: string): set<string> {
    set k | k in registry && ty + [NUL] <= k :: k[|ty| + 1..]
  }

  function EntriesOf(fmt: Printer, n: Node, fields: set<string>, id: Id): set<(string, Id)> {
    set f | f in fields && f in n.properties :: (Key(fmt, n.nodeType, f, n.properties[f]), id)
  }

  function Insert(fmt: Printer, s: Store, id: Id, n: Node): Store {
    Store(s.nodes[id := n], s.rows + {id}, s.types + {(n.nodeType, id)},
          s.entries + EntriesOf(fmt, n, IndexedFields(s.registry, n.nodeType), id), s.registry)
  }

  function Delete(s: Store, id: Id): Store {
    if id in s.nodes
    then Store(s.nodes - {id}, s.rows - {id}, s.types - {(s.nodes[id].nodeType, id)}, s.entries, s.registry)
    else s.(rows := s.rows - {id})
  }

  /** An update rewrites the payload and leaves every index alone. */
  function Update(s: Store, id: Id, properties: Properties): Store {
    if id in s.nodes then s.(nodes := s.nodes[id := s.nodes[id].(properties := properties)], rows := s.rows +
      {id}) else s
  }

  /** A batch writes rows and type entries for all its nodes and leaves the property indexes alone. */
  function InsertBatch(s: Store, items: map<Id, Node>): Store {
    s.(nodes := s.nodes + items, rows := s.rows + items.Keys,
       types := s.types + set id | id in items :: (items[id].nodeType, id))
  }

  /** The ids `create_property_index` can see: filed under the type and with a payload row. */
  function Visible(s: Store, ty: string): set<Id> {
    set p | p in s.types && p.0 == ty && p.1 in s.rows && p.1 in s.nodes :: p.1
  }

  function Create(fmt: Printer, s: Store, ty: string, f: string): Store {
    if RegKey(ty, f) in s.registry then s
    else s.(entries := s.entries + (set id | id in Visible(s, ty) && f in s.nodes[id].properties ::
                                      (Key(fmt, ty, f, s.nodes[id].properties[f]), id)),
            registry := s.registry + {RegKey(ty, f)})
  }

  function Drop(s: Store, ty: string, f: string): Store {
    s.(entries := (set p | p in s.entries && !(Prefix(ty, f) <= p.0)),
       registry := s.registry - {RegKey(ty, f)})
  }

  /** `Database::index_lookup`: None without an index, otherwise the live ids filed under the key. */
  function Lookup(fmt: Printer, s: Store, ty: string, f: string, v: Value): Option<set<Id>> {
    if RegKey(ty, f) !in s.registry then None
    else Some(set p | p in s.entries && p.0 == Key(fmt, ty, f, v) && p.1 in s.nodes :: p.1)
  }

  /** The scan an index lookup stands for. */
  function Scan(s: Store, ty: string, f: string, v: Value): set<Id> {
    set id | id in s.nodes && s.nodes[id].nodeType == ty && f in s.nodes[id].properties &&
      s.nodes[id].properties[f] == v
  }

  function OfType(s: Store, ty: string): set<Id> {
    set id | id in s.nodes && s.nodes[id].nodeType == ty
  }

  // ---------- the invariant ----------

  /** The type index files every node under its type and no live node elsewhere. */
  ghost predicate TypesOk(s: Store) {
    && (forall id :: id in s.nodes ==> NulFree(s.nodes[id].nodeType) && (s.nodes[id].nodeType, id) in s.types)
    && (forall p :: p in s.types && p.1 in s.nodes ==> s.nodes[p.1].nodeType == p.0)
  }

  ghost predicate Registered(s: Store, ty: string, f: string) {
    NulFree(ty) && NulFree(f) && RegKey(ty, f) in s.registry
  }

  ghost predicate RegistryOk(s: Store) {
    forall k :: k in s.registry ==> exists ty, f :: NulFree(ty) && NulFree(f) && k == RegKey(ty, f)
  }

  /** The entry `k` describes the node: it is the key of one of its indexed properties. */
  ghost predicate Describes(fmt: Printer, s: Store, k: string, n: Node) {
    exists f :: Registered(s, n.nodeType, f) && f in n.properties && k == Key(fmt, n.nodeType, f, n.properties[f])
  }

  ghost predicate Truthful(fmt: Printer, s: Store) {
    forall p :: p in s.entries && p.1 in s.nodes ==> Describes(fmt, s, p.0, s.nodes[p.1])
  }

  ghost predicate Complete(fmt: Printer, s: Store) {
    forall id, f :: id in s.nodes && f in s.nodes[id].properties && Registered(s, s.nodes[id].nodeType, f) ==>
      (Key(fmt, s.nodes[id].nodeType, f, s.nodes[id].properties[f]), id) in s.entries
  }

  ghost predicate Inv(fmt: Printer, s: Store) {
    TypesOk(s) && RegistryOk(s) && Truthful(fmt, s) && Complete(fmt, s)
  }

  /** The entry `k` carries the node's type, whatever its properties say by now. */
  ghost predicate Filed(fmt: Printer, k: string, n: Node) {
    exists f, v :: NulFree(f) && k == Key(fmt, n.nodeType, f, v)
  }

  /** What every operation keeps, whether or not it maintains the property indexes. */
  ghost predicate Sound(fmt: Printer, s: Store) {
    && TypesOk(s) && RegistryOk(s)
    && forall p :: p in s.entries && p.1 in s.nodes ==> Filed(fmt, p.0, s.nodes[p.1])
  }

  lemma InvIsSound(fmt: Printer, s: Store)
    requires Inv(fmt, s)
    ensures Sound(fmt, s)
  {
    hide Key, RegKey, NulFree;
    forall p | p in s.entries && p.1 in s.nodes ensures Filed(fmt, p.0, s.nodes[p.1]) {
      assert Describes(fmt, s, p.0, s.nodes[p.1]);
    }
  }

  ghost predicate Fresh(s: Store, id: Id) {
    id !in s.nodes && (forall p :: p in s.types + s.entries ==> p.1 != id)
  }

  /** No payload of the type has been evicted. */
  ghost predicate AllRows(s: Store, ty: string) {
    forall id :: id in s.nodes && s.nodes[id].nodeType == ty ==> id in s.rows
  }

  /** The type index answers type queries exactly. */
  lemma TypeLookupExact(s: Store, ty: string)
    requires TypesOk(s)
    ensures (set p | p in s.types && p.0 == ty && p.1 in s.nodes :: p.1) == OfType(s, ty)
  {
    forall id | id in OfType(s, ty) ensures id in (set p | p in s.types && p.0 == ty && p.1 in s.nodes :: p.1) {
      assert (ty, id) in s.types;
    }
  }

  /** A lookup of a string, integer or boolean through a live index is the scan it replaces. */
  lemma LookupIsScan(fmt: Printer, s: Store, ty: string, f: string, v: Value)
    requires Inv(fmt, s) && Registered(s, ty, f) && Scalar(v)
    ensures Lookup(fmt, s, ty, f, v) == Some(Scan(s, ty, f, v))
  {
    hide Key;
    var found := Lookup(fmt, s, ty, f, v).value;
    forall id | id in found ensures id in Scan(s, ty, f, v) {
      var p :| p in s.entries && p.0 == Key(fmt, ty, f, v) && p.1 == id;
      var n := s.nodes[id];
      assert Describes(fmt, s, p.0, n);
      var g :| Registered(s, n.nodeType, g) && g in n.properties && p.0 == Key(fmt, n.nodeType, g, n.properties[g]);
      KeyInjective(fmt, ty, f, v, n.nodeType, g, n.properties[g]);
    }
    forall id | id in Scan(s, ty, f, v) ensures id in found {
      assert (Key(fmt, ty, f, v), id) in s.entries;
    }
    assert found == Scan(s, ty, f, v);
  }

  /** Whatever value is looked up, the nodes found have the type that was asked for. */
  lemma LookupIsTyped(fmt: Printer, s: Store, ty: string, f: string, v: Value, id: Id)
    requires Sound(fmt, s) && Registered(s, ty, f)
    requires id in Lookup(fmt, s, ty, f, v).value
    ensures s.nodes[id].nodeType == ty
  {
    hide Key;
    var p :| p in s.entries && p.0 == Key(fmt, ty, f, v) && p.1 == id;
    var n := s.nodes[id];
    assert Filed(fmt, p.0, n);
    var g, w :| NulFree(g) && p.0 == Key(fmt, n.nodeType, g, w);
    KeyInjective(fmt, ty, f, v, n.nodeType, g, w);
  }

  // ---------- each operation keeps it ----------

  lemma FieldsAreRegistered(s: Store, ty: string)
    requires RegistryOk(s) && NulFree(ty)
    ensures forall f :: f in IndexedFields(s.registry, ty) <==> Registered(s, ty, f)
  {
    forall f | f in IndexedFields(s.registry, ty) ensures Registered(s, ty, f) {
      var k :| k in s.registry && ty + [NUL] <= k && k[|ty| + 1..] == f;
      var ty', f' :| NulFree(ty') && NulFree(f') && k == RegKey(ty', f');
      RegPrefixExact(ty, ty', f');
    }
    forall f | Registered(s, ty, f) ensures f in IndexedFields(s.registry, ty) {
      RegPrefixExact(ty, ty, f);
      assert RegKey(ty, f) in s.registry;
    }
  }

  lemma InsertKeeps(fmt: Printer, s: Store, id: Id, n: Node)
    requires Inv(fmt, s) && Fresh(s, id) && NulFree(n.nodeType)
    ensures Inv(fmt, Insert(fmt, s, id, n))
  {
    var s' := Insert(fmt, s, id, n);
    FieldsAreRegistered(s, n.nodeType);
    var more := EntriesOf(fmt, n, IndexedFields(s.registry, n.nodeType), id);
    hide IndexedFields;
    hide Key;
    hide RegKey;
    hide NulFree;
    InsertedEntries(fmt, s, id, n);
    forall p | p in s'.entries && p.1 in s'.nodes ensures Describes(fmt, s', p.0, s'.nodes[p.1]) {
      if p in s.entries {
        DescribesKept(fmt, s, s', p.0, s.nodes[p.1]);
      } else {
        DescribesKept(fmt, s, s', p.0, n);
      }
    }
    forall x, f | x in s'.nodes && f in s'.nodes[x].properties && Registered(s', s'.nodes[x].nodeType, f)
      ensures (Key(fmt, s'.nodes[x].nodeType, f, s'.nodes[x].properties[f]), x) in s'.entries
    {
      if x == id {
        assert (Key(fmt, n.nodeType, f, n.properties[f]), id) in more;
      } else {
        assert Registered(s, s.nodes[x].nodeType, f);
      }
    }
  }

  /** Descriptions depend only on the registry. */
  lemma DescribesKept(fmt: Printer, s: Store, s': Store, k: string, n: Node)
    requires s.registry <= s'.registry && Describes(fmt, s, k, n)
    ensures Describes(fmt, s', k, n)
  {
    hide Key;
    hide NulFree;
    var f :| Registered(s, n.nodeType, f) && f in n.properties && k == Key(fmt, n.nodeType, f, n.properties[f]);
    assert Registered(s', n.nodeType, f);
  }

  lemma InsertedEntries(fmt: Printer, s: Store, id: Id, n: Node)
    requires RegistryOk(s) && NulFree(n.nodeType)
    ensures forall p :: p in EntriesOf(fmt, n, IndexedFields(s.registry, n.nodeType), id) ==>
              p.1 == id && Describes(fmt, s, p.0, n)
    ensures forall f :: Registered(s, n.nodeType, f) && f in n.properties ==>
              (Key(fmt, n.nodeType, f, n.properties[f]), id) in EntriesOf(fmt, n, IndexedFields(s.registry,
                n.nodeType), id)
  {
    FieldsAreRegistered(s, n.nodeType);
    hide IndexedFields;
    hide Key;
    hide Registered;
  }

  lemma DeleteKeeps(fmt: Printer, s: Store, id: Id)
    requires Inv(fmt, s)
    ensures Inv(fmt, Delete(s, id))
  {
    hide Key;
    hide RegKey;
    hide NulFree;
    var s' := Delete(s, id);
    forall p | p in s'.entries && p.1 in s'.nodes ensures Describes(fmt, s', p.0, s'.nodes[p.1]) {
      assert Describes(fmt, s, p.0, s.nodes[p.1]);
      DescribesKept(fmt, s, s', p.0, s.nodes[p.1]);
    }
    forall x, f | x in s'.nodes && f in s'.nodes[x].properties && Registered(s', s'.nodes[x].nodeType, f)
      ensures (Key(fmt, s'.nodes[x].nodeType, f, s'.nodes[x].properties[f]), x) in s'.entries
    {
      assert Registered(s, s.nodes[x].nodeType, f);
    }
  }

  /** Eviction and promotion move payload rows and touch no index. */
  lemma RowsKeep(fmt: Printer, s: Store, rows: set<Id>)
    requires Inv(fmt, s)
    ensures Inv(fmt, s.(rows := rows))
  {
    hide Key;
    hide RegKey;
    hide NulFree;
    var s' := s.(rows := rows);
    forall p | p in s'.entries && p.1 in s'.nodes ensures Describes(fmt, s', p.0, s'.nodes[p.1]) {
      DescribesKept(fmt, s, s', p.0, s.nodes[p.1]);
    }
    forall x, f | x in s'.nodes && f in s'.nodes[x].properties && Registered(s', s'.nodes[x].nodeType, f)
      ensures (Key(fmt, s'.nodes[x].nodeType, f, s'.nodes[x].properties[f]), x) in s'.entries
    {
      assert Registered(s, s.nodes[x].nodeType, f);
    }
  }

  lemma CreateKeeps(fmt: Printer, s: Store, ty: string, f: string)
    requires Inv(fmt, s) && NulFree(ty) && NulFree(f) && AllRows(s, ty)
    ensures Inv(fmt, Create(fmt, s, ty, f))
  {
    var s' := Create(fmt, s, ty, f);
    if RegKey(ty, f) !in s.registry {
      assert RegistryOk(s') by { CreateRegistry(fmt, s, ty, f); }
      hide Key;
      forall x, g | Registered(s', x, g) ensures Registered(s, x, g) || (x == ty && g == f) {
        if RegKey(x, g) == RegKey(ty, f) { RegKeyInjective(x, g, ty, f); }
      }
      assert Registered(s', ty, f);
      hide RegKey;
      hide NulFree;
      forall p | p in s'.entries && p.1 in s'.nodes ensures Describes(fmt, s', p.0, s'.nodes[p.1]) {
        if p in s.entries { DescribesKept(fmt, s, s', p.0, s.nodes[p.1]); }
      }
      forall x, g | x in s'.nodes && g in s'.nodes[x].properties && Registered(s', s'.nodes[x].nodeType, g)
        ensures (Key(fmt, s'.nodes[x].nodeType, g, s'.nodes[x].properties[g]), x) in s'.entries
      {
        if s.nodes[x].nodeType == ty && g == f {
          assert (ty, x) in s.types;
          assert x in Visible(s, ty);
        }
      }
    }
  }

  lemma CreateRegistry(fmt: Printer, s: Store, ty: string, f: string)
    requires RegistryOk(s) && NulFree(ty) && NulFree(f)
    ensures RegistryOk(Create(fmt, s, ty, f))
  {
  }

  /** Dropping an index removes its own entries and no other index's. */
  lemma DropKeeps(fmt: Printer, s: Store, ty: string, f: string)
    requires Inv(fmt, s) && NulFree(ty) && NulFree(f)
    ensures Inv(fmt, Drop(s, ty, f))
  {
    var s' := Drop(s, ty, f);
    hide Key;
    hide Prefix;
    forall p | p in s'.entries && p.1 in s'.nodes ensures Describes(fmt, s', p.0, s'.nodes[p.1]) {
      var n := s.nodes[p.1];
      assert Describes(fmt, s, p.0, n);
      var g :| Registered(s, n.nodeType, g) && g in n.properties && p.0 == Key(fmt, n.nodeType, g, n.properties[g]);
      PrefixExact(fmt, ty, f, n.nodeType, g, n.properties[g]);
      if RegKey(n.nodeType, g) == RegKey(ty, f) { RegKeyInjective(n.nodeType, g, ty, f); }
      assert Registered(s', n.nodeType, g);
    }
    forall x, g | x in s'.nodes && g in s'.nodes[x].properties && Registered(s', s'.nodes[x].nodeType, g)
      ensures (Key(fmt, s'.nodes[x].nodeType, g, s'.nodes[x].properties[g]), x) in s'.entries
    {
      assert Registered(s, s.nodes[x].nodeType, g);
      PrefixExact(fmt, ty, f, s.nodes[x].nodeType, g, s.nodes[x].properties[g]);
    }
  }

  /** An update that changes no indexed field keeps the invariant. */
  lemma UpdateKeeps(fmt: Printer, s: Store, id: Id, properties: Properties)
    requires Inv(fmt, s) && Neutral(s, id, properties)
    ensures Inv(fmt, Update(s, id, properties))
  {
    hide Key, RegKey, NulFree;
    var s' := Update(s, id, properties);
    forall p | p in s'.entries && p.1 in s'.nodes ensures Describes(fmt, s', p.0, s'.nodes[p.1]) {
      var n := s.nodes[p.1];
      assert Describes(fmt, s, p.0, n);
      var f :| Registered(s, n.nodeType, f) && f in n.properties && p.0 == Key(fmt, n.nodeType, f, n.properties[f]);
      assert Registered(s', n.nodeType, f);
    }
    forall x, f | x in s'.nodes && f in s'.nodes[x].properties && Registered(s', s'.nodes[x].nodeType, f)
      ensures (Key(fmt, s'.nodes[x].nodeType, f, s'.nodes[x].properties[f]), x) in s'.entries
    {
      assert Registered(s, s.nodes[x].nodeType, f);
    }
  }

  /** A batch of new nodes without indexed fields keeps it too. */
  lemma BatchKeeps(fmt: Printer, s: Store, items: map<Id, Node>)
    requires Inv(fmt, s) && NewNodes(s, items) && NoIndexedFields(s, items)
    ensures Inv(fmt, InsertBatch(s, items))
  {
    hide Key, RegKey, NulFree;
    var s' := InsertBatch(s, items);
    assert TypesOk(s') by { BatchTypes(s, items); }
    forall p | p in s'.entries && p.1 in s'.nodes ensures Describes(fmt, s', p.0, s'.nodes[p.1]) {
      assert p.1 !in items;
      DescribesKept(fmt, s, s', p.0, s.nodes[p.1]);
    }
    forall x, f | x in s'.nodes && f in s'.nodes[x].properties && Registered(s', s'.nodes[x].nodeType, f)
      ensures (Key(fmt, s'.nodes[x].nodeType, f, s'.nodes[x].properties[f]), x) in s'.entries
    {
      assert Registered(s, s'.nodes[x].nodeType, f);
      assert x !in items;
    }
  }

  lemma BatchTypes(s: Store, items: map<Id, Node>)
    requires TypesOk(s) && NewNodes(s, items)
    ensures TypesOk(InsertBatch(s, items))
  {
    hide NulFree;
    var s' := InsertBatch(s, items);
    forall p | p in s'.types && p.1 in s'.nodes ensures s'.nodes[p.1].nodeType == p.0 {
      if p in s.types {
        assert p.1 !in items;
      }
    }
  }

  // ---------- each operation keeps the entries typed ----------

  lemma {:induction false} StepSound(fmt: Printer, s: Store, op: Op)
    requires Sound(fmt, s) && Sane(s, op)
    ensures Sound(fmt, Apply(fmt, s, op))
  {
    hide Key, RegKey, NulFree;
    match op
    case InsertOp(id, n) => InsertSound(fmt, s, id, n);
    case CreateOp(ty, f) => CreateSound(fmt, s, ty, f);
    case DropOp(ty, f) => DropSound(fmt, s, ty, f);
    case BatchOp(items) => BatchSound(fmt, s, items);
    case UpdateOp(id, properties) => UpdateSound(fmt, s, id, properties);
    case DeleteOp(id) =>
    case MoveRows(rows) =>
  }

  lemma InsertSound(fmt: Printer, s: Store, id: Id, n: Node)
    requires Sound(fmt, s) && Fresh(s, id) && NulFree(n.nodeType)
    ensures Sound(fmt, Insert(fmt, s, id, n))
  {
    var s' := Insert(fmt, s, id, n);
    FieldsAreRegistered(s, n.nodeType);
    hide IndexedFields, Key, RegKey, NulFree;
    forall p | p in s'.entries && p.1 in s'.nodes ensures Filed(fmt, p.0, s'.nodes[p.1]) {
      if p in s.entries {
        assert p.1 != id;
      }
    }
  }

  lemma UpdateSound(fmt: Printer, s: Store, id: Id, properties: Properties)
    requires Sound(fmt, s)
    ensures Sound(fmt, Update(s, id, properties))
  {
    hide Key, RegKey, NulFree;
    var s' := Update(s, id, properties);
    forall p | p in s'.entries && p.1 in s'.nodes ensures Filed(fmt, p.0, s'.nodes[p.1]) {
      assert Filed(fmt, p.0, s.nodes[p.1]);
    }
  }

  lemma BatchSound(fmt: Printer, s: Store, items: map<Id, Node>)
    requires Sound(fmt, s) && NewNodes(s, items)
    ensures Sound(fmt, InsertBatch(s, items))
  {
    hide Key, RegKey, NulFree;
    BatchTypes(s, items);
    var s' := InsertBatch(s, items);
    forall p | p in s'.entries && p.1 in s'.nodes ensures Filed(fmt, p.0, s'.nodes[p.1]) {
      assert p.1 !in items;
    }
  }

  lemma CreateSound(fmt: Printer, s: Store, ty: string, f: string)
    requires Sound(fmt, s) && NulFree(ty) && NulFree(f)
    ensures Sound(fmt, Create(fmt, s, ty, f))
  {
    CreateRegistry(fmt, s, ty, f);
    hide Key, RegKey, NulFree;
    var s' := Create(fmt, s, ty, f);
    forall p | p in s'.entries && p.1 in s'.nodes ensures Filed(fmt, p.0, s'.nodes[p.1]) {
      if p !in s.entries {
        assert (ty, p.1) in s.types;
      }
    }
  }

  lemma DropSound(fmt: Printer, s: Store, ty: string, f: string)
    requires Sound(fmt, s)
    ensures Sound(fmt, Drop(s, ty, f))
  {
    hide Key, RegKey, NulFree, Prefix;
  }

  // ---------- runs ----------

  datatype Op =
    | InsertOp(id: Id, n: Node)
    | BatchOp(items: map<Id, Node>)
    | UpdateOp(id: Id, properties: Properties)
    | DeleteOp(id: Id)
    | CreateOp(ty: string, f: string)
    | DropOp(ty: string, f: string)
    | MoveRows(rows: set<Id>)

  function Apply(fmt: Printer, s: Store, op: Op): Store {
    match op
    case InsertOp(id, n) => Insert(fmt, s, id, n)
    case BatchOp(items) => InsertBatch(s, items)
    case UpdateOp(id, properties) => Update(s, id, properties)
    case DeleteOp(id) => Delete(s, id)
    case CreateOp(ty, f) => Create(fmt, s, ty, f)
    case DropOp(ty, f) => Drop(s, ty, f)
    case MoveRows(rows) => s.(rows := rows)
  }

  ghost predicate NewNodes(s: Store, items: map<Id, Node>) {
    forall id :: id in items ==> Fresh(s, id) && NulFree(items[id].nodeType)
  }

  /** No node of the batch has a field registered for its type. */
  ghost predicate NoIndexedFields(s: Store, items: map<Id, Node>) {
    forall id, f :: id in items && f in items[id].properties ==> !Registered(s, items[id].nodeType, f)
  }

  /** The update leaves every field registered for the node's type as it is. */
  ghost predicate Neutral(s: Store, id: Id, properties: Properties) {
    id in s.nodes ==> forall f :: Registered(s, s.nodes[id].nodeType, f) ==>
      && (f in properties <==> f in s.nodes[id].properties)
      && (f in properties ==> properties[f] == s.nodes[id].properties[f])
  }

  /** Ids are new and names hold no NUL. */
  ghost predicate Sane(s: Store, op: Op) {
    match op
    case InsertOp(id, n) => Fresh(s, id) && NulFree(n.nodeType)
    case BatchOp(items) => NewNodes(s, items)
    case CreateOp(ty, f) => NulFree(ty) && NulFree(f)
    case DropOp(ty, f) => NulFree(ty) && NulFree(f)
    case _ => true
  }

  /**
   * Besides, an index is created while the type's payloads are local, and what does not maintain
   * the indexes changes no indexed field.
   */
  ghost predicate Legal(s: Store, op: Op) {
    Sane(s, op) &&
    match op
    case CreateOp(ty, f) => AllRows(s, ty)
    case BatchOp(items) => NoIndexedFields(s, items)
    case UpdateOp(id, properties) => Neutral(s, id, properties)
    case _ => true
  }

  lemma StepKeeps(fmt: Printer, s: Store, op: Op)
    requires Inv(fmt, s) && Legal(s, op)
    ensures Inv(fmt, Apply(fmt, s, op))
  {
    hide Inv;
    match op
    case InsertOp(id, n) => InsertKeeps(fmt, s, id, n);
    case BatchOp(items) => BatchKeeps(fmt, s, items);
    case UpdateOp(id, properties) => UpdateKeeps(fmt, s, id, properties);
    case DeleteOp(id) => DeleteKeeps(fmt, s, id);
    case CreateOp(ty, f) => CreateKeeps(fmt, s, ty, f);
    case DropOp(ty, f) => DropKeeps(fmt, s, ty, f);
    case MoveRows(rows) => RowsKeep(fmt, s, rows);
  }

  function Run(fmt: Printer, s: Store, ops: seq<Op>): Store
    decreases |ops|
  {
    if ops == [] then s else Run(fmt, Apply(fmt, s, ops[0]), ops[1..])
  }

  ghost predicate LegalRun(fmt: Printer, s: Store, ops: seq<Op>)
    decreases |ops|
  {
    ops == [] || (Legal(s, ops[0]) && LegalRun(fmt, Apply(fmt, s, ops[0]), ops[1..]))
  }

  lemma {:induction false} RunKeeps(fmt: Printer, s: Store, ops: seq<Op>)
    requires Inv(fmt, s) && LegalRun(fmt, s, ops)
    ensures Inv(fmt, Run(fmt, s, ops))
    decreases |ops|
  {
    hide Inv;
    hide Legal;
    hide Apply;
    if ops != [] {
      StepKeeps(fmt, s, ops[0]);
      RunKeeps(fmt, Apply(fmt, s, ops[0]), ops[1..]);
    }
  }

  /** After any such run from the empty database, every live index answers scalar lookups like a scan. */
  lemma RunLookupIsScan(fmt: Printer, ops: seq<Op>, ty: string, f: string, v: Value)
    requires LegalRun(fmt, EMPTY, ops) && Registered(Run(fmt, EMPTY, ops), ty, f) && Scalar(v)
    ensures var s := Run(fmt, EMPTY, ops); Lookup(fmt, s, ty, f, v) == Some(Scan(s, ty, f, v))
  {
    RunKeeps(fmt, EMPTY, ops);
    LookupIsScan(fmt, Run(fmt, EMPTY, ops), ty, f, v);
  }

  ghost predicate SaneRun(fmt: Printer, s: Store, ops: seq<Op>)
    decreases |ops|
  {
    ops == [] || (Sane(s, ops[0]) && SaneRun(fmt, Apply(fmt, s, ops[0]), ops[1..]))
  }

  /** Every run, with any updates, batches and index creations in it, keeps the entries typed. */
  lemma {:induction false} RunSound(fmt: Printer, s: Store, ops: seq<Op>)
    requires Sound(fmt, s) && SaneRun(fmt, s, ops)
    ensures Sound(fmt, Run(fmt, s, ops))
    decreases |ops|
  {
    hide Sound, Sane, Apply;
    if ops != [] {
      StepSound(fmt, s, ops[0]);
      RunSound(fmt, Apply(fmt, s, ops[0]), ops[1..]);
    }
  }

  /** The same operation on a plain map of nodes; indexes and rows are not in it. */
  function ApplyToMap(m: map<Id, Node>, op: Op): map<Id, Node> {
    match op
    case InsertOp(id, n) => m[id := n]
    case BatchOp(items) => map id | id in m.Keys + items.Keys :: if id in items then items[id] else m[id]
    case UpdateOp(id, properties) => if id in m then m[id := Node(m[id].nodeType, properties)] else m
    case DeleteOp(id) => map x | x in m && x != id :: m[x]
    case _ => m
  }

  function RunOnMap(m: map<Id, Node>, ops: seq<Op>): map<Id, Node>
    decreases |ops|
  {
    if ops == [] then m else RunOnMap(ApplyToMap(m, ops[0]), ops[1..])
  }

  /** Whatever the indexes do, the nodes are those a plain map would hold. */
  lemma {:induction false} RunNodes(fmt: Printer, s: Store, ops: seq<Op>)
    ensures Run(fmt, s, ops).nodes == RunOnMap(s.nodes, ops)
    decreases |ops|
  {
    if ops != [] {
      StepNodes(fmt, s, ops[0]);
      RunNodes(fmt, Apply(fmt, s, ops[0]), ops[1..]);
    }
  }

  lemma StepNodes(fmt: Printer, s: Store, op: Op)
    ensures Apply(fmt, s, op).nodes == ApplyToMap(s.nodes, op)
  {
    hide Key;
  }

  /** A created index is registered, a dropped one is gone, and neither changes what any other index answers. */
  lemma OtherIndexesKept(fmt: Printer, s: Store, ty: string, f: string, ty': string, f': string, v: Value)
    requires NulFree(ty) && NulFree(f) && NulFree(ty') && NulFree(f')
    ensures Registered(Create(fmt, s, ty, f), ty, f) && !Registered(Drop(s, ty, f), ty, f)
    ensures Lookup(fmt, Drop(s, ty, f), ty, f, v) == None
    ensures (ty', f') != (ty, f) ==> Lookup(fmt, Drop(s, ty, f), ty', f', v) == Lookup(fmt, s, ty', f', v)
    ensures (ty', f') != (ty, f) ==> Lookup(fmt, Create(fmt, s, ty, f), ty', f', v) == Lookup(fmt, s, ty', f', v)
  {
    if (ty', f') != (ty, f) {
      hide Key, Prefix;
      if RegKey(ty, f) == RegKey(ty', f') { RegKeyInjective(ty, f, ty', f'); }
      PrefixExact(fmt, ty, f, ty', f', v);
      hide RegKey, NulFree;
      forall w ensures Key(fmt, ty, f, w) != Key(fmt, ty', f', v) {
        DifferentKeys(fmt, ty, f, w, ty', f', v);
      }
      SameEntries(fmt, s, Drop(s, ty, f), ty', f', v);
      SameEntries(fmt, s, Create(fmt, s, ty, f), ty', f', v);
    }
  }

  lemma DifferentKeys(fmt: Printer, ty: string, f: string, w: Value, ty': string, f': string, v: Value)
    requires NulFree(ty) && NulFree(f) && NulFree(ty') && NulFree(f') && (ty', f') != (ty, f)
    ensures Key(fmt, ty, f, w) != Key(fmt, ty', f', v)
  {
    hide Key;
    if Key(fmt, ty, f, w) == Key(fmt, ty', f', v) {
      KeyInjective(fmt, ty, f, w, ty', f', v);
    }
  }

  lemma SameEntries(fmt: Printer, s: Store, s': Store, ty: string, f: string, v: Value)
    requires s'.nodes == s.nodes && (RegKey(ty, f) in s'.registry <==> RegKey(ty, f) in s.registry)
    requires forall id: Id :: (Key(fmt, ty, f, v), id) in s'.entries <==> (Key(fmt, ty, f, v), id) in s.entries
    ensures Lookup(fmt, s', ty, f, v) == Lookup(fmt, s, ty, f, v)
  {
    hide Key, RegKey;
    if RegKey(ty, f) in s.registry {
      var found, found' := Lookup(fmt, s, ty, f, v).value, Lookup(fmt, s', ty, f, v).value;
      forall id ensures id in found <==> id in found' {
        assert id in found <==> (Key(fmt, ty, f, v), id) in s.entries && id in s.nodes;
        assert id in found' <==> (Key(fmt, ty, f, v), id) in s'.entries && id in s'.nodes;
      }
      assert found == found';
    }
  }

  // ---------- exactly when the uncovered operations hurt ----------

  /** An entry of a live node is filed under (ty, f, v) only through that property of that node. */
  lemma EntryMeans(fmt: Printer, s: Store, id: Id, ty: string, f: string, v: Value)
    requires Inv(fmt, s) && id in s.nodes && NulFree(ty) && NulFree(f) && Scalar(v)
    ensures (Key(fmt, ty, f, v), id) in s.entries <==>
            && Registered(s, ty, f) && s.nodes[id].nodeType == ty
            && f in s.nodes[id].properties && s.nodes[id].properties[f] == v
  {
    hide Key;
    var n := s.nodes[id];
    if (Key(fmt, ty, f, v), id) in s.entries {
      assert Describes(fmt, s, Key(fmt, ty, f, v), n);
      var g :| Registered(s, n.nodeType, g) && g in n.properties &&
        Key(fmt, ty, f, v) == Key(fmt, n.nodeType, g, n.properties[g]);
      KeyInjective(fmt, ty, f, v, n.nodeType, g, n.properties[g]);
    }
  }

  /** A new index is exact for a value if and only if every node holding the value still has its payload row. */
  lemma CreateExact(fmt: Printer, s: Store, ty: string, f: string, v: Value)
    requires Inv(fmt, s) && NulFree(ty) && NulFree(f) && RegKey(ty, f) !in s.registry && Scalar(v)
    ensures Lookup(fmt, Create(fmt, s, ty, f), ty, f, v) == Some(Scan(s, ty, f, v)) <==> Scan(s, ty, f, v) <= s.rows
  {
    hide Key;
    var s' := Create(fmt, s, ty, f);
    var found := Lookup(fmt, s', ty, f, v).value;
    forall id ensures id in found <==> id in Scan(s, ty, f, v) && id in s.rows {
      if id in s.nodes {
        EntryMeans(fmt, s, id, ty, f, v);
        CreatedEntry(fmt, s, ty, f, v, id);
      }
    }
    assert Scan(s, ty, f, v) <= s.rows <==> found == Scan(s, ty, f, v);
  }

  lemma CreatedEntry(fmt: Printer, s: Store, ty: string, f: string, v: Value, id: Id)
    requires Inv(fmt, s) && NulFree(ty) && NulFree(f) && RegKey(ty, f) !in s.registry && Scalar(v) && id in s.nodes
    ensures (Key(fmt, ty, f, v), id) in Create(fmt, s, ty, f).entries <==>
            (Key(fmt, ty, f, v), id) in s.entries || (id in Scan(s, ty, f, v) && id in s.rows)
  {
    hide Key;
    var n := s.nodes[id];
    if id in Scan(s, ty, f, v) && id in s.rows {
      assert (ty, id) in s.types;
      assert id in Visible(s, ty);
    }
    if id in Visible(s, ty) && f in n.properties && Key(fmt, ty, f, n.properties[f]) == Key(fmt, ty, f, v) {
      KeyInjective(fmt, ty, f, v, ty, f, n.properties[f]);
    }
  }

  /**
   * An update leaves a lookup exact if and only if it does not change whether the node's field
   * holds the value that is looked up.
   */
  lemma UpdateExact(fmt: Printer, s: Store, id: Id, properties: Properties, f: string, v: Value)
    requires Inv(fmt, s) && id in s.nodes && Registered(s, s.nodes[id].nodeType, f) && Scalar(v)
    ensures var ty, s' := s.nodes[id].nodeType, Update(s, id, properties);
            Lookup(fmt, s', ty, f, v) == Some(Scan(s', ty, f, v)) <==>
            ((f in s.nodes[id].properties && s.nodes[id].properties[f] == v) <==>
              (f in properties && properties[f] == v))
  {
    hide Key;
    var ty, s' := s.nodes[id].nodeType, Update(s, id, properties);
    var found, old_ := Lookup(fmt, s', ty, f, v).value, Lookup(fmt, s, ty, f, v).value;
    LookupIsScan(fmt, s, ty, f, v);
    assert found == old_;
    assert forall x :: x != id ==> (x in Scan(s', ty, f, v) <==> x in Scan(s, ty, f, v));
    if (f in s.nodes[id].properties && s.nodes[id].properties[f] == v) <==> (f in properties && properties[f] == v) {
      assert Scan(s', ty, f, v) == Scan(s, ty, f, v);
    } else {
      assert id in Scan(s', ty, f, v) <==> id !in Scan(s, ty, f, v);
    }
  }

  /** A batch leaves a lookup exact if and only if none of its nodes holds the value that is looked up. */
  lemma BatchExact(fmt: Printer, s: Store, items: map<Id, Node>, ty: string, f: string, v: Value)
    requires Inv(fmt, s) && NewNodes(s, items) && Registered(s, ty, f) && Scalar(v)
    ensures var s' := InsertBatch(s, items);
            Lookup(fmt, s', ty, f, v) == Some(Scan(s', ty, f, v)) <==>
            forall id :: id in items && items[id].nodeType == ty && f in items[id].properties ==>
              items[id].properties[f] != v
  {
    hide Key, NulFree, RegKey;
    var s' := InsertBatch(s, items);
    var found := Lookup(fmt, s', ty, f, v).value;
    LookupIsScan(fmt, s, ty, f, v);
    forall id ensures id in found <==> id in Scan(s, ty, f, v) {
      assert (Key(fmt, ty, f, v), id) in s.entries ==> id !in items;
    }
    forall id ensures id in Scan(s', ty, f, v) <==>
      id in Scan(s, ty, f, v) || (id in items && items[id].nodeType == ty && f in items[id].properties &&
        items[id].properties[f] == v)
    {
    }
    assert forall id :: id in items ==> id !in Scan(s, ty, f, v);
    if forall id :: id in items && items[id].nodeType == ty && f in items[id].properties ==>
      items[id].properties[f] != v {
      assert Scan(s', ty, f, v) == found;
    }
  }

  // ---------- runs on which each of them hurts ----------

  const ONE: Node := Node("t", map["x" := Int(1)])
  const TWO: Properties := map["x" := Int(2)]

  lemma SameLookup(fmt: Printer, s: Store, s': Store, ty: string, f: string, v: Value)
    requires s'.entries == s.entries && s'.registry == s.registry && s'.nodes.Keys == s.nodes.Keys
    ensures Lookup(fmt, s', ty, f, v) == Lookup(fmt, s, ty, f, v)
  {
    hide Key, RegKey;
    assert forall id :: id in s.nodes <==> id in s'.nodes;
    if RegKey(ty, f) in s.registry {
      assert Lookup(fmt, s', ty, f, v).value == Lookup(fmt, s, ty, f, v).value;
    }
  }

  lemma NoEntries(fmt: Printer, s: Store, ty: string, f: string, v: Value)
    requires s.entries == {} && RegKey(ty, f) in s.registry
    ensures Lookup(fmt, s, ty, f, v) == Some({})
  {
    hide Key, RegKey;
    assert Lookup(fmt, s, ty, f, v).value == {};
  }

  lemma ScanOne(s: Store, n: Node, i: int)
    requires s.nodes == map["n" := n] && n.nodeType == "t" && n.properties == map["x" := Int(i)]
    ensures Scan(s, "t", "x", Int(i)) == {"n"} && forall j :: j != i ==> Scan(s, "t", "x", Int(j)) == {}
  {
    assert n.properties["x"] == Int(i);
  }

  lemma Indexing(fmt: Printer) returns (s: Store)
    ensures s == Create(fmt, EMPTY, "t", "x")
    ensures Inv(fmt, s) && Registered(s, "t", "x") && s.nodes == map[] && s.types == {} && s.entries == {}
  {
    s := Create(fmt, EMPTY, "t", "x");
    CreateKeeps(fmt, EMPTY, "t", "x");
  }

  /** An index created after the one node has been evicted finds nothing. */
  lemma CreateMissesEvicted(fmt: Printer)
    ensures var s := Run(fmt, EMPTY, [InsertOp("n", ONE), MoveRows({}), CreateOp("t", "x")]);
            Lookup(fmt, s, "t", "x", Int(1)) == Some({}) && Scan(s, "t", "x", Int(1)) == {"n"}
  {
    hide Key, RegKey, Lookup, Scan;
    var s1 := Insert(fmt, EMPTY, "n", ONE).(rows := {});
    assert s1.entries == {} by { assert EntriesOf(fmt, ONE, IndexedFields({}, "t"), "n") == {}; }
    assert s1.registry == {} && Visible(s1, "t") == {};
    var s := Create(fmt, s1, "t", "x");
    assert s.entries == {} && s.nodes == map["n" := ONE];
    RunThree(fmt, EMPTY, InsertOp("n", ONE), MoveRows({}), CreateOp("t", "x"));
    NoEntries(fmt, s, "t", "x", Int(1));
    ScanOne(s, ONE, 1);
  }

  /** After an update of the indexed field the new value is not found and the old one still is. */
  lemma UpdateLeavesStale(fmt: Printer)
    ensures var s := Run(fmt, EMPTY, [CreateOp("t", "x"), InsertOp("n", ONE), UpdateOp("n", TWO)]);
            && Lookup(fmt, s, "t", "x", Int(1)) == Some({"n"}) && Scan(s, "t", "x", Int(1)) == {}
            && Lookup(fmt, s, "t", "x", Int(2)) == Some({}) && Scan(s, "t", "x", Int(2)) == {"n"}
  {
    var s0 := Indexing(fmt);
    hide Inv, Key, Create, RegKey, Lookup, Scan;
    var s1 := Insert(fmt, s0, "n", ONE);
    InsertKeeps(fmt, s0, "n", ONE);
    LookupIsScan(fmt, s1, "t", "x", Int(1));
    LookupIsScan(fmt, s1, "t", "x", Int(2));
    RunThree(fmt, EMPTY, CreateOp("t", "x"), InsertOp("n", ONE), UpdateOp("n", TWO));
    var s := Update(s1, "n", TWO);
    SameLookup(fmt, s1, s, "t", "x", Int(1));
    SameLookup(fmt, s1, s, "t", "x", Int(2));
    ScanOne(s1, ONE, 1);
    ScanOne(s, ONE.(properties := TWO), 2);
  }

  /** A node inserted in a batch is not found through the index. */
  lemma BatchIsNotFound(fmt: Printer)
    ensures var s := Run(fmt, EMPTY, [CreateOp("t", "x"), BatchOp(map["n" := ONE])]);
            Lookup(fmt, s, "t", "x", Int(1)) == Some({}) && Scan(s, "t", "x", Int(1)) == {"n"}
  {
    var s0 := Indexing(fmt);
    hide Inv, Key, Create, RegKey, Lookup, Scan;
    assert [CreateOp("t", "x"), BatchOp(map["n" := ONE])][1..] == [BatchOp(map["n" := ONE])];
    assert [BatchOp(map["n" := ONE])][1..] == [];
    var s := InsertBatch(s0, map["n" := ONE]);
    assert Run(fmt, s0, [BatchOp(map["n" := ONE])]) == Run(fmt, s, []) == s;
    NoEntries(fmt, s, "t", "x", Int(1));
    ScanOne(s, ONE, 1);
  }

  lemma RunThree(fmt: Printer, s: Store, a: Op, b: Op, c: Op)
    ensures Run(fmt, s, [a, b, c]) == Apply(fmt, Apply(fmt, Apply(fmt, s, a), b), c)
  {
    hide Apply;
    assert [a, b, c][1..] == [b, c] && [b, c][1..] == [c] && [c][1..] == [];
    var s1 := Apply(fmt, s, a);
    var s2 := Apply(fmt, s1, b);
    assert Run(fmt, s2, [c]) == Run(fmt, Apply(fmt, s2, c), []) == Apply(fmt, s2, c);
    assert Run(fmt, s1, [b, c]) == Run(fmt, s2, [c]);
  }
}
