/** The property-index tables as fields, changed by the loops of src/storage/local.rs. */
module PropertyTables {
  import opened Wrappers
  import opened Values
  import opened IndexKeys
  import opened PropertyIndex

  /** The visible nodes of the type that have the field. */
  ghost function Holders(s: Store, ty: string, f: string): set<Id> {
    set id | id in Visible(s, ty) && f in s.nodes[id].properties
  }

  /** The loop of `create_property_index`: entries for the visible nodes that have the field. */
  method BuildEntries(fmt: Printer, s: Store, ty: string, f: string) returns (entries: set<(string, Id)>)
    ensures entries == set id | id in Visible(s, ty) && f in s.nodes[id].properties ::
                         (Key(fmt, ty, f, s.nodes[id].properties[f]), id)
    ensures |entries| == |Holders(s, ty, f)|
  {
    hide Key;
    entries := {};
    var todo := Visible(s, ty);
    while todo != {}
      invariant todo <= Visible(s, ty)
      invariant entries == set id | id in Visible(s, ty) - todo && f in s.nodes[id].properties ::
                             (Key(fmt, ty, f, s.nodes[id].properties[f]), id)
      decreases |todo|
    {
      var id :| id in todo;
      todo := todo - {id};
      if f in s.nodes[id].properties {
        entries := entries + {(Key(fmt, ty, f, s.nodes[id].properties[f]), id)};
      }
    }
    assert Visible(s, ty) - {} == Visible(s, ty);
    EntryEach(fmt, s, ty, f, Holders(s, ty, f));
    assert entries == EntriesFor(fmt, s, ty, f, Holders(s, ty, f));
  }

  ghost function EntriesFor(fmt: Printer, s: Store, ty: string, f: string, ids: set<Id>): set<(string, Id)> {
    set id | id in ids && id in s.nodes &&
      f in s.nodes[id].properties :: (Key(fmt, ty, f, s.nodes[id].properties[f]), id)
  }

  /** Different nodes have different entries. */
  lemma {:induction false} EntryEach(fmt: Printer, s: Store, ty: string, f: string, ids: set<Id>)
    requires forall id :: id in ids ==> id in s.nodes && f in s.nodes[id].properties
    ensures |EntriesFor(fmt, s, ty, f, ids)| == |ids|
    decreases |ids|
  {
    hide Key;
    if ids != {} {
      var id :| id in ids;
      EntryEach(fmt, s, ty, f, ids - {id});
      var entry := (Key(fmt, ty, f, s.nodes[id].properties[f]), id);
      assert EntriesFor(fmt, s, ty, f, ids) == EntriesFor(fmt, s, ty, f, ids - {id}) + {entry};
    }
  }

  /** The loop of `update_property_indexes`: an entry for every registered field the node has. */
  method FieldEntries(fmt: Printer, n: Node, fields: set<string>, id: Id) returns (entries: set<(string, Id)>)
    ensures entries == EntriesOf(fmt, n, fields, id)
  {
    hide Key;
    entries := {};
    var todo := fields;
    while todo != {}
      invariant todo <= fields && entries == EntriesOf(fmt, n, fields - todo, id)
      decreases |todo|
    {
      var f :| f in todo;
      todo := todo - {f};
      if f in n.properties {
        entries := entries + {(Key(fmt, n.nodeType, f, n.properties[f]), id)};
      }
    }
    assert fields - {} == fields;
  }

  /** The loop of `drop_property_index`: keep the entries outside the prefix. */
  method KeepOthers(entries: set<(string, Id)>, prefix: string) returns (kept: set<(string, Id)>)
    ensures kept == set p | p in entries && !(prefix <= p.0)
  {
    kept := entries;
    var todo := entries;
    while todo != {}
      invariant todo <= entries && kept == set p | p in entries && (p in todo || !(prefix <= p.0))
      decreases |todo|
    {
      var p :| p in todo;
      todo := todo - {p};
      if prefix <= p.0 {
        kept := kept - {p};
      }
    }
  }

  /**
   * The loop of `index_lookup`: the ids that still resolve to a node, each once; the first node
   * whose payload cannot be fetched ends it with an error.
   */
  method ResolveIds(ids: set<Id>, live: set<Id>, readable: set<Id>) returns (r: Result<seq<Id>>)
    ensures r.Ok? <==> ids * live <= readable
    ensures r.Ok? ==> forall x :: x in r.value <==> x in ids && x in live
    ensures r.Ok? ==> forall i, j :: 0 <= i < j < |r.value| ==> r.value[i] != r.value[j]
  {
    var list: seq<Id> := [];
    var todo := ids;
    while todo != {}
      invariant todo <= ids && (ids - todo) * live <= readable
      invariant forall x :: x in list <==> x in ids - todo && x in live
      invariant forall i, j :: 0 <= i < j < |list| ==> list[i] != list[j]
      decreases |todo|
    {
      var id :| id in todo;
      todo := todo - {id};
      if id in live {
        if id !in readable {
          assert id in ids * live;
          return Err;
        }
        list := list + [id];
      }
    }
    r := Ok(list);
  }

  class Tables {
    const fmt: Printer
    var nodes: map<Id, Node>
    var rows: set<Id>
    var types: set<(string, Id)>
    var entries: set<(string, Id)>
    var registry: set<string>

    function View(): Store
      reads this
    {
      Store(nodes, rows, types, entries, registry)
    }

    constructor (fmt: Printer)
      ensures this.fmt == fmt && View() == EMPTY && Inv(fmt, View())
    {
      this.fmt := fmt;
      nodes, rows, types, entries, registry := map[], {}, {}, {}, {};
    }

    method InsertNode(id: Id, n: Node)
      modifies this
      ensures View() == Insert(fmt, old(View()), id, n)
    {
      nodes := nodes[id := n];
      rows := rows + {id};
      types := types + {(n.nodeType, id)};
      var more := FieldEntries(fmt, n, IndexedFields(registry, n.nodeType), id);
      entries := entries + more;
    }

    method DeleteNode(id: Id)
      modifies this
      ensures View() == Delete(old(View()), id)
    {
      if id in nodes {
        types := types - {(nodes[id].nodeType, id)};
      }
      nodes := nodes - {id};
      rows := rows - {id};
    }

    method CreateIndex(ty: string, f: string) returns (count: nat)
      modifies this
      ensures View() == Create(fmt, old(View()), ty, f)
      ensures count == if RegKey(ty, f) in old(registry) then 0 else |Holders(old(View()), ty, f)|
    {
      if RegKey(ty, f) in registry {
        return 0;
      }
      var more := BuildEntries(fmt, View(), ty, f);
      entries := entries + more;
      registry := registry + {RegKey(ty, f)};
      count := |more|;
    }

    method DropIndex(ty: string, f: string)
      modifies this
      ensures View() == Drop(old(View()), ty, f)
    {
      var kept := KeepOthers(entries, Prefix(ty, f));
      registry := registry - {RegKey(ty, f)};
      entries := kept;
    }

    /**
     * Follow the index and drop the ids that no longer resolve; through a live index this is a
     * scan. It fails exactly when the payload of a node found cannot be fetched.
     */
    method IndexLookup(ty: string, f: string, v: Value, readable: set<Id>) returns (found: Result<Option<seq<Id>>>)
      ensures var ids := Lookup(fmt, View(), ty, f, v);
              && (found.Ok? <==> ids.None? || ids.value <= readable)
              && (found.Ok? ==> (found.value.Some? <==> ids.Some?))
              && (found.Ok? && ids.Some? ==>
                    && (forall x :: x in found.value.value <==> x in ids.value)
                    && (forall i, j :: 0 <= i < j < |found.value.value| ==>
                      found.value.value[i] != found.value.value[j]))
      ensures found.Ok? && Inv(fmt, View()) && Registered(View(), ty, f) && Scalar(v) ==>
                found.value.Some? && forall x :: x in found.value.value <==> x in Scan(View(), ty, f, v)
    {
      if RegKey(ty, f) !in registry {
        return Ok(None);
      }
      hide Key, Inv, Registered, Scan;
      var filed := set p | p in entries && p.0 == Key(fmt, ty, f, v) :: p.1;
      assert Lookup(fmt, View(), ty, f, v).value == filed * nodes.Keys;
      var list := ResolveIds(filed, nodes.Keys, readable);
      found := if list.Ok? then Ok(Some(list.value)) else Err;
      if Inv(fmt, View()) && Registered(View(), ty, f) && Scalar(v) {
        LookupIsScan(fmt, View(), ty, f, v);
      }
    }
  }
}
