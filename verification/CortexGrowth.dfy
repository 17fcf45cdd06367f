/** What the node dictionary and the edge passes keep while the graph is built. */
module CortexGrowth {
  import opened OrderedMaps
  import opened CortexModel

  ghost predicate Keyed(nodes: Nodes)
  {
    nodes.Valid() && forall k :: k in nodes.entries ==> nodes.entries[k].id == k
  }

  lemma {:induction false} KeysPresent(nodes: Nodes)
    requires nodes.Valid()
    ensures Present(nodes.entries, nodes.keys)
  {
  }

  lemma {:induction false} ExtendsKeyed(base: Nodes, nodes: Nodes, extra: set<NodeId>)
    requires Extends(base, nodes, extra)
    ensures Keyed(nodes) && nodes.Valid()
  {
  }

  lemma {:induction false} ExtendsSame(base: Nodes, nodes: Nodes, extra: set<NodeId>, more: set<NodeId>)
    requires Extends(base, nodes, extra) && base.entries.Keys + extra == base.entries.Keys + more
    ensures Extends(base, nodes, more) && nodes.entries.Keys == base.entries.Keys + more
  {
  }

  /** A node a pass created itself. */
  ghost predicate Created(n: Node)
  {
    && n.Linkless() && n.metrics == NO_METRICS
    && match n.kind
       case Tag => |n.title| > 0 && n == TagNode(n.title[1..])
       case Folder => n == FolderNode(n.folder)
       case ExternalLink =>
         n.id == ExternalId(n.path) && IsExternal(n.path) && n.folder == "" &&
         exists text :: n == ExternalNode(MdLink(text, n.path))
       case _ => false
  }

  /** `nodes` keeps every entry of `base` in place, and adds created nodes for exactly the
      identifiers in `extra` that `base` lacks. */
  ghost predicate Extends(base: Nodes, nodes: Nodes, extra: set<NodeId>)
  {
    && Keyed(nodes)
    && base.keys <= nodes.keys
    && nodes.entries.Keys == base.entries.Keys + extra
    && (forall k :: k in base.entries ==> nodes.entries[k] == base.entries[k])
    && (forall k :: k in nodes.entries && k !in base.entries ==> Created(nodes.entries[k]))
  }

  lemma {:induction false} ExtendsSelf(nodes: Nodes)
    requires Keyed(nodes)
    ensures Extends(nodes, nodes, {})
  {
  }

  lemma {:induction false} ExtendsTrans(a: Nodes, b: Nodes, c: Nodes, x: set<NodeId>, y: set<NodeId>)
    requires Extends(a, b, x) && Extends(b, c, y)
    ensures Extends(a, c, x + y)
  {
  }

  lemma {:induction false} PutMissingExtends(base: Nodes, nodes: Nodes, extra: set<NodeId>, n: Node)
    requires Extends(base, nodes, extra) && Created(n)
    ensures Extends(base, PutMissing(nodes, n), extra + {n.id})
  {
  }

  lemma {:induction false} ExternalCreated(link: MdLink)
    requires IsExternal(link.href)
    ensures Created(ExternalNode(link)) && ExternalNode(link).id == ExternalId(link.href)
  {
  }

  lemma {:induction false} WithTagsExtends(nodes: Nodes, tags: seq<string>)
    requires Keyed(nodes)
    ensures Extends(nodes, WithTags(nodes, tags), TagIdsOf(tags))
    ensures forall k :: k in WithTags(nodes, tags).entries && k !in nodes.entries ==>
        WithTags(nodes, tags).entries[k].kind == Tag
  {
    if tags != [] {
      var tag := tags[|tags| - 1];
      WithTagsExtends(nodes, tags[..|tags| - 1]);
      assert ("#" + tag)[1..] == tag;
      PutMissingExtends(nodes, WithTags(nodes, tags[..|tags| - 1]), TagIdsOf(tags[..|tags| - 1]), TagNode(tag));
    }
  }

  lemma {:induction false} WithFoldersExtends(nodes: Nodes, folders: seq<string>)
    requires Keyed(nodes)
    ensures Extends(nodes, WithFolders(nodes, folders), FolderIdsOf(folders))
    ensures forall k :: k in WithFolders(nodes, folders).entries && k !in nodes.entries ==>
      WithFolders(nodes, folders).entries[k].kind == Folder
  {
    if folders != [] {
      var init := folders[..|folders| - 1];
      WithFoldersExtends(nodes, init);
      PutMissingExtends(nodes, WithFolders(nodes, init), FolderIdsOf(init), FolderNode(folders[|folders| - 1]));
    }
  }

  lemma {:induction false} WithExternalsExtends(base: Nodes, nodes: Nodes, extra: set<NodeId>, links: seq<MdLink>,
      n: nat)
    requires Extends(base, nodes, extra) && n <= |links|
    ensures Extends(base, WithExternals(nodes, links, n), extra + ExternalIds(links, n))
  {
    hide Extends, Created, IsExternal, ExternalNode, ExternalId;
    if n == 0 {
      assert extra + ExternalIds(links, 0) == extra;
    } else {
      WithExternalsExtends(base, nodes, extra, links, n - 1);
      if IsExternal(links[n - 1].href) {
        ExternalCreated(links[n - 1]);
        PutMissingExtends(base, WithExternals(nodes, links, n - 1), extra + ExternalIds(links, n - 1),
            ExternalNode(links[n - 1]));
      }
      var added := if IsExternal(links[n - 1].href) then {ExternalId(links[n - 1].href)} else {};
      assert extra + ExternalIds(links, n) == extra + ExternalIds(links, n - 1) + added;
      assert !IsExternal(links[n - 1].href) ==> extra + ExternalIds(links, n) == extra + ExternalIds(links, n - 1);
    }
  }

  lemma {:induction false} WithLinkedExtends(nodes: Nodes, m: map<NodeId, Node>, keys: seq<NodeId>, n: nat)
    requires Keyed(nodes) && Present(m, keys) && n <= |keys|
    ensures Extends(nodes, WithLinked(nodes, m, keys, n), LinkedIds(m, keys, n))
  {
    hide Extends, Keyed;
    if n > 0 {
      WithLinkedExtends(nodes, m, keys, n - 1);
      var links := m[keys[n - 1]].mdLinks;
      WithExternalsExtends(nodes, WithLinked(nodes, m, keys, n - 1), LinkedIds(m, keys, n - 1), links, |links|);
    } else {
      ExtendsSelf(nodes);
    }
  }

  lemma {:induction false} TagIdsOfElements(tags: seq<string>)
    ensures TagIdsOf(tags) == set t | t in Elements(tags) :: TagId(t)
  {
    if tags != [] {
      TagIdsOfElements(tags[..|tags| - 1]);
      assert Elements(tags) == Elements(tags[..|tags| - 1]) + {tags[|tags| - 1]} by {
        assert tags == tags[..|tags| - 1] + [tags[|tags| - 1]];
      }
    }
  }

  lemma {:induction false} FolderIdsOfElements(folders: seq<string>)
    ensures FolderIdsOf(folders) == set f | f in Elements(folders) :: FolderId(f)
  {
    if folders != [] {
      FolderIdsOfElements(folders[..|folders| - 1]);
      assert Elements(folders) == Elements(folders[..|folders| - 1]) + {folders[|folders| - 1]} by {
        assert folders == folders[..|folders| - 1] + [folders[|folders| - 1]];
      }
    }
  }

  lemma {:induction false} NoteNodesKeyed(notes: seq<Note>, n: nat)
    requires n <= |notes|
    ensures Keyed(NoteNodes(notes, n))
  {
    hide Distinct, TopFolder;
    if n > 0 { NoteNodesKeyed(notes, n - 1); }
  }

  lemma {:induction false} NewKeys(base: Nodes, nodes: Nodes, extra: set<NodeId>)
    requires base.Valid() && Extends(base, nodes, extra)
    ensures forall i :: |base.keys| <= i < |nodes.keys| ==>
        nodes.keys[i] in nodes.entries && nodes.keys[i] !in base.entries
  {
    forall i | |base.keys| <= i < |nodes.keys|
      ensures nodes.keys[i] in nodes.entries && nodes.keys[i] !in base.entries {
      assert nodes.keys[i] in nodes.keys;
      if nodes.keys[i] in base.keys {
        var j :| 0 <= j < |base.keys| && base.keys[j] == nodes.keys[i];
        assert nodes.keys[j] == base.keys[j];
        DistinctAt(nodes.keys, j, i);
        assert false;
      }
    }
  }

  /** A pass over the grown dictionary yields what it yields over the notes, when the created nodes
      owe nothing. */
  lemma {:induction false} CollectCreated(owed: Owed, base: Nodes, nodes: Nodes, extra: set<NodeId>)
    requires base.Valid() && Extends(base, nodes, extra)
    requires forall k :: k in nodes.entries && k !in base.entries ==> owed(nodes.entries[k]) == []
    ensures Present(base.entries, base.keys) && Present(nodes.entries, nodes.keys)
    ensures CollectAll(owed, nodes) == CollectAll(owed, base)
  {
    KeysPresent(base);
    KeysPresent(nodes);
    NewKeys(base, nodes, extra);
    CollectAgrees(owed, base.entries, nodes.entries, base.keys, nodes.keys, |base.keys|);
    CollectSilent(owed, nodes.entries, nodes.keys, |base.keys|, |nodes.keys|);
  }

  lemma {:induction false} CollectIgnoresCreated(owed: Owed, base: Nodes, nodes: Nodes, extra: set<NodeId>)
    requires base.Valid() && Extends(base, nodes, extra)
    requires forall n :: Created(n) ==> owed(n) == []
    ensures Present(base.entries, base.keys) && Present(nodes.entries, nodes.keys)
    ensures CollectAll(owed, nodes) == CollectAll(owed, base)
  {
    CollectCreated(owed, base, nodes, extra);
  }

  lemma {:induction false} CreatedOwesNothing(n: Node, ids: set<NodeId>, stems: map<string, NodeId>)
    requires Created(n)
    ensures n.kind != ExternalLink ==> FolderOwed(ids)(n) == []
    ensures LinkOwed(stems)(n) == []
    ensures TagOwed(ids)(n) == [] && CiteOwed(stems)(n) == []
  {
  }

  lemma {:induction false} LinkedIdsCreated(base: Nodes, nodes: Nodes, extra: set<NodeId>)
    requires base.Valid() && Extends(base, nodes, extra)
    ensures Present(base.entries, base.keys) && Present(nodes.entries, nodes.keys)
    ensures LinkedIds(nodes.entries, nodes.keys, |nodes.keys|) == LinkedIds(base.entries, base.keys, |base.keys|)
  {
    KeysPresent(base);
    KeysPresent(nodes);
    NewKeys(base, nodes, extra);
    LinkedAgrees(base.entries, nodes.entries, base.keys, nodes.keys, |base.keys|);
    LinkedSilent(nodes.entries, nodes.keys, |base.keys|, |nodes.keys|);
  }

  /** Tag and folder nodes in any order: the dictionary after the first phase, and its folder pass. */
  lemma {:induction false} LocalNodes(notes: seq<Note>, tagOrder: seq<string>, folderOrder: seq<string>)
    requires Elements(tagOrder) == AllTags(notes, |notes|) && Elements(folderOrder) == AllFolders(notes, |notes|)
    ensures
      var local := WithFolders(WithTags(Base(notes), tagOrder), folderOrder);
      && Keyed(local) && Extends(Base(notes), local, TagIds(notes) + FolderIds(notes))
      && local.entries.Keys == LocalIds(notes)
      && Present(local.entries, local.keys)
      && CollectAll(FolderOwed(LocalIds(notes)), local) == CollectAll(FolderOwed(LocalIds(notes)), Base(notes))
  {
    var base := Base(notes);
    NoteNodesKeyed(notes, |notes|);
    var tagged := WithTags(base, tagOrder);
    WithTagsExtends(base, tagOrder);
    TagIdsOfElements(tagOrder);
    var local := WithFolders(tagged, folderOrder);
    WithFoldersExtends(tagged, folderOrder);
    FolderIdsOfElements(folderOrder);
    ExtendsTrans(base, tagged, local, TagIds(notes), FolderIds(notes));
    var ids := LocalIds(notes);
    forall k | k in local.entries && k !in base.entries ensures FolderOwed(ids)(local.entries[k]) == [] {
      CreatedOwesNothing(local.entries[k], ids, map[]);
    }
    CollectCreated(FolderOwed(ids), base, local, TagIds(notes) + FolderIds(notes));
  }

  /** External nodes inserted during the link pass: the final dictionary, and the other passes. */
  lemma {:induction false} LinkedNodes(notes: seq<Note>, local: Nodes)
    requires Extends(Base(notes), local, TagIds(notes) + FolderIds(notes)) && Present(local.entries, local.keys)
    ensures
      var final := WithLinked(local, local.entries, local.keys, |local.keys|);
      && Keyed(final) && Extends(Base(notes), final, BuiltIds(notes))
      && final.entries.Keys == BuiltIds(notes)
      && Present(final.entries, final.keys)
      && CollectAll(LinkOwed(Stems(notes)), local) == CollectAll(LinkOwed(Stems(notes)), Base(notes))
      && CollectAll(TagOwed(BuiltIds(notes)), final) == CollectAll(TagOwed(BuiltIds(notes)), Base(notes))
      && CollectAll(CiteOwed(Stems(notes)), final) == CollectAll(CiteOwed(Stems(notes)), Base(notes))
  {
    hide Extends, Created, LinkOwed, TagOwed, CiteOwed, WithLinked, LinkedIds, CollectAll, Keyed;
    var base, stems, ids := Base(notes), Stems(notes), BuiltIds(notes);
    NoteNodesKeyed(notes, |notes|);
    var localExtra := TagIds(notes) + FolderIds(notes);
    ExtendsKeyed(base, local, localExtra);
    var final := WithLinked(local, local.entries, local.keys, |local.keys|);
    WithLinkedExtends(local, local.entries, local.keys, |local.keys|);
    LinkedIdsCreated(base, local, localExtra);
    var linked := LinkedIds(base.entries, base.keys, |base.keys|);
    ExtendsTrans(base, local, final, localExtra, linked);
    ExtendsSame(base, final, localExtra + linked, ids);
    assert base.entries.Keys + ids == ids;
    ExtendsKeyed(base, final, ids);
    forall n | Created(n)
      ensures LinkOwed(stems)(n) == [] && TagOwed(ids)(n) == [] && CiteOwed(stems)(n) == []
    {
      CreatedOwesNothing(n, ids, stems);
    }
    CollectIgnoresCreated(LinkOwed(stems), base, local, localExtra);
    CollectIgnoresCreated(TagOwed(ids), base, final, ids);
    CollectIgnoresCreated(CiteOwed(stems), base, final, ids);
  }
}
