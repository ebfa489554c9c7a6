/**
 * `CollectionPager#sorted_tags`: groups the documents of a collection by
 * the values of their tag field, tags in ascending order, documents in
 * collection order.
 */
module TagGroups {
  import opened Sorting
  import opened Seqs

  /** A document's value for the tag field; an absent key is nil. */
  datatype FieldValue =
    | False
    | Single(tag: string)
    | Several(tags: seq<string>)

  /** A document of the collection: its path and its front matter. */
  datatype Document = Document(path: string, data: map<string, FieldValue>)

  /** The tags a document lists under `field`: none for nil or `false`, a string as a one-element list. */
  function DocTags(doc: Document, field: string): seq<string> {
    if field !in doc.data then []
    else
      match doc.data[field]
      case False => []
      case Single(t) => [t]
      case Several(ts) => ts
  }

  /** One (tag, document) pair per listed tag, in list order. */
  function DocPairs(doc: Document, field: string): (r: seq<(string, Document)>)
    ensures |r| == |DocTags(doc, field)|
    ensures forall k :: 0 <= k < |r| ==> r[k] == (DocTags(doc, field)[k], doc)
  {
    var ts := DocTags(doc, field);
    seq(|ts|, k requires 0 <= k < |ts| => (ts[k], doc))
  }

  /** The pairs of every document, in the order `sorted_tags` visits them. */
  function Pairs(docs: seq<Document>, field: string): seq<(string, Document)>
    decreases |docs|
  {
    if |docs| == 0 then [] else Pairs(docs[..|docs| - 1], field) + DocPairs(docs[|docs| - 1], field)
  }

  /** The distinct tags of `pairs` in order of first occurrence: the keys of the `tags` hash. */
  function FirstSeen(pairs: seq<(string, Document)>): seq<string>
    decreases |pairs|
  {
    if |pairs| == 0 then []
    else
      var seen := FirstSeen(pairs[..|pairs| - 1]);
      if pairs[|pairs| - 1].0 in seen then seen else seen + [pairs[|pairs| - 1].0]
  }

  /** The documents paired with `tag`, in order: the value of `tags[tag]`. */
  function Collected(pairs: seq<(string, Document)>, tag: string): seq<Document>
    decreases |pairs|
  {
    if |pairs| == 0 then []
    else
      Collected(pairs[..|pairs| - 1], tag) + (if pairs[|pairs| - 1].0 == tag then [pairs[|pairs| - 1].1] else [])
  }

  /** One element `[tag, documents]` of the result of `sorted_tags`. */
  datatype Group = Group(tag: string, docs: seq<Document>)

  /** `tags.keys.sort.map { |tag| [tag, tags[tag]] }` once every document has been visited. */
  function GroupByTag(docs: seq<Document>, field: string): seq<Group> {
    var pairs := Pairs(docs, field);
    var keys := Sort(FirstSeen(pairs));
    seq(|keys|, i requires 0 <= i < |keys| => Group(keys[i], Collected(pairs, keys[i])))
  }

  /** `sorted_tags(site, collection_name, tag_field)`: nothing for a missing collection. */
  function TagsWithDocs(collections: map<string, seq<Document>>, name: string, field: string): seq<Group> {
    if name in collections then GroupByTag(collections[name], field) else []
  }

  /** The hash `tags` and its key order agree with the pairs visited so far. */
  ghost predicate Registered(tags: map<string, seq<Document>>, keys: seq<string>, pairs: seq<(string, Document)>) {
    && keys == FirstSeen(pairs)
    && (forall t :: t in tags <==> t in keys)
    && (forall t :: t in tags ==> tags[t] == Collected(pairs, t))
  }

  /** `sorted_tags`: the nested loops over documents and their tags, then the sort. */
  method SortedTags(collections: map<string, seq<Document>>, name: string, field: string) returns (groups: seq<Group>)
    ensures groups == TagsWithDocs(collections, name, field)
  {
    if name !in collections {
      return [];
    }
    var docs := collections[name];
    var tags, keys := CollectTags(docs, field);
    var sorted := Sort(keys);
    RegistryGroups(tags, keys, docs, field);
    groups := seq(|sorted|, k requires 0 <= k < |sorted| => Group(sorted[k], tags[sorted[k]]));
  }

  /** The outer loop of `sorted_tags`: the `tags` hash and its key order after visiting every document. */
  method CollectTags(docs: seq<Document>, field: string) returns (tags: map<string, seq<Document>>, keys: seq<string>)
    ensures Registered(tags, keys, Pairs(docs, field))
  {
    tags, keys := map[], [];
    var i := 0;
    while i < |docs|
      invariant 0 <= i <= |docs|
      invariant Registered(tags, keys, Pairs(docs[..i], field))
    {
      tags, keys := RegisterTags(tags, keys, docs[i], field, Pairs(docs[..i], field));
      PairsNext(docs, i, field);
      i := i + 1;
    }
    TakeAll(docs);
  }

  /** The inner loop of `sorted_tags`: adds `doc` under each of its tags, creating a tag's entry on first sight. */
  method RegisterTags(tags: map<string, seq<Document>>, keys: seq<string>, doc: Document, field: string,
                      ghost done: seq<(string, Document)>)
    returns (tags': map<string, seq<Document>>, keys': seq<string>)
    requires Registered(tags, keys, done)
    ensures Registered(tags', keys', done + DocPairs(doc, field))
  {
    var docTags := DocTags(doc, field);
    ghost var added := DocPairs(doc, field);
    tags', keys' := tags, keys;
    var j := 0;
    AppendTakeNone(done, added);
    while j < |docTags|
      invariant 0 <= j <= |docTags|
      invariant Registered(tags', keys', done + added[..j])
    {
      var tag := docTags[j];
      ghost var tags0, keys0 := tags', keys';
      if tag !in tags' {
        tags' := tags'[tag := []];
        keys' := keys' + [tag];
      }
      tags' := tags'[tag := tags'[tag] + [doc]];
      RegisterStep(tags0, keys0, done + added[..j], tag, doc, tags', keys');
      AppendTakeNext(done, added, j);
      j := j + 1;
    }
    AppendTakeAll(done, added);
  }

  /** Once every document is visited, sorting the keys and looking each up gives the grouping. */
  lemma RegistryGroups(tags: map<string, seq<Document>>, keys: seq<string>, docs: seq<Document>, field: string)
    requires Registered(tags, keys, Pairs(docs, field))
    ensures forall t :: t in Sort(keys) ==> t in tags
    ensures seq(|Sort(keys)|, k requires 0 <= k < |Sort(keys)| => Group(Sort(keys)[k], tags[Sort(keys)[k]])) == GroupByTag(docs, field)
  {
    var sorted := Sort(keys);
    forall t | t in sorted
      ensures t in tags
    {
      assert t in multiset(sorted);
    }
  }

  /** Visiting one more pair keeps the hash and its key order in step with the pairs. */
  lemma RegisterStep(tags: map<string, seq<Document>>, keys: seq<string>, pairs: seq<(string, Document)>,
                     tag: string, doc: Document, tags': map<string, seq<Document>>, keys': seq<string>)
    requires Registered(tags, keys, pairs)
    requires keys' == if tag in tags then keys else keys + [tag]
    requires tags' == tags[tag := (if tag in tags then tags[tag] else []) + [doc]]
    ensures Registered(tags', keys', pairs + [(tag, doc)])
  {
    var next := pairs + [(tag, doc)];
    assert next[..|next| - 1] == pairs;
    forall t | t in tags'
      ensures tags'[t] == Collected(next, t)
    {
      if t != tag {
        assert t in tags;
      } else if tag !in tags {
        UnseenEmpty(pairs, tag);
      }
    }
  }

  /** A tag not yet seen has no documents. */
  lemma {:induction false} UnseenEmpty(pairs: seq<(string, Document)>, t: string)
    requires t !in FirstSeen(pairs)
    ensures Collected(pairs, t) == []
    decreases |pairs|
  {
    if |pairs| > 0 {
      UnseenEmpty(pairs[..|pairs| - 1], t);
    }
  }

  /** The pairs of the first `i + 1` documents extend those of the first `i` by the pairs of document `i`. */
  lemma PairsNext(docs: seq<Document>, i: nat, field: string)
    requires i < |docs|
    ensures Pairs(docs[..i + 1], field) == Pairs(docs[..i], field) + DocPairs(docs[i], field)
  {
    TakeNext(docs, i);
  }

  /** The pairs of a list of documents followed by one more document. */
  lemma PairsSnoc(docs: seq<Document>, doc: Document, field: string)
    ensures Pairs(docs + [doc], field) == Pairs(docs, field) + DocPairs(doc, field)
  {
    assert (docs + [doc])[..|docs|] == docs;
  }

  /** Every tag, with repetitions, in document order. */
  function AllTags(docs: seq<Document>, field: string): seq<string>
    decreases |docs|
  {
    if |docs| == 0 then [] else AllTags(docs[..|docs| - 1], field) + DocTags(docs[|docs| - 1], field)
  }

  /** How often `tag` occurs in `ts`. */
  function Occurrences(ts: seq<string>, tag: string): nat
    decreases |ts|
  {
    if |ts| == 0 then 0 else Occurrences(ts[..|ts| - 1], tag) + (if ts[|ts| - 1] == tag then 1 else 0)
  }

  /** `n` copies of `doc`. */
  function Repeat(doc: Document, n: nat): (r: seq<Document>)
    ensures |r| == n && forall k :: 0 <= k < n ==> r[k] == doc
  {
    seq(n, k => doc)
  }

  /** The reference grouping: each document, in collection order, once per occurrence of `tag` in its list. */
  function Tagged(docs: seq<Document>, field: string, tag: string): seq<Document>
    decreases |docs|
  {
    if |docs| == 0 then []
    else Tagged(docs[..|docs| - 1], field, tag) + Repeat(docs[|docs| - 1], Occurrences(DocTags(docs[|docs| - 1], field), tag))
  }

  /** The tags of the pairs are the tags of the documents. */
  lemma {:induction false} PairTags(docs: seq<Document>, field: string)
    ensures var p := Pairs(docs, field); var a := AllTags(docs, field);
      |p| == |a| && forall k :: 0 <= k < |p| ==> p[k].0 == a[k]
    decreases |docs|
  {
    if |docs| > 0 {
      PairTags(docs[..|docs| - 1], field);
    }
  }

  /** A tag has been seen exactly when some pair carries it; the seen tags are distinct. */
  lemma {:induction false} FirstSeenTags(pairs: seq<(string, Document)>)
    ensures Distinct(FirstSeen(pairs))
    ensures forall t :: t in FirstSeen(pairs) <==> exists k :: 0 <= k < |pairs| && pairs[k].0 == t
    decreases |pairs|
  {
    if |pairs| > 0 {
      var init := pairs[..|pairs| - 1];
      FirstSeenTags(init);
      forall t | t in FirstSeen(pairs)
        ensures exists k :: 0 <= k < |pairs| && pairs[k].0 == t
      {
        if t in FirstSeen(init) {
          var k :| 0 <= k < |init| && init[k].0 == t;
          assert pairs[k].0 == t;
        }
      }
      forall t | exists k :: 0 <= k < |pairs| && pairs[k].0 == t
        ensures t in FirstSeen(pairs)
      {
        var k :| 0 <= k < |pairs| && pairs[k].0 == t;
        if k < |init| {
          assert init[k].0 == t;
        }
      }
    }
  }

  /** A seen tag has at least one document. */
  lemma {:induction false} CollectedNonEmpty(pairs: seq<(string, Document)>, t: string)
    requires t in FirstSeen(pairs)
    ensures |Collected(pairs, t)| > 0
    decreases |pairs|
  {
    var init := pairs[..|pairs| - 1];
    if pairs[|pairs| - 1].0 != t {
      CollectedNonEmpty(init, t);
    }
  }

  lemma {:induction false} CollectedAppend(a: seq<(string, Document)>, b: seq<(string, Document)>, t: string)
    ensures Collected(a + b, t) == Collected(a, t) + Collected(b, t)
    decreases |b|
  {
    if |b| > 0 {
      var ab := a + b;
      assert ab[..|ab| - 1] == a + b[..|b| - 1];
      assert ab[|ab| - 1] == b[|b| - 1];
      CollectedAppend(a, b[..|b| - 1], t);
      var tail := if b[|b| - 1].0 == t then [b[|b| - 1].1] else [];
      assert Collected(ab, t) == Collected(a + b[..|b| - 1], t) + tail;
      assert Collected(b, t) == Collected(b[..|b| - 1], t) + tail;
    } else {
      assert a + b == a;
    }
  }

  /** The documents one document contributes to `tag`: itself, once per occurrence. */
  lemma {:induction false} CollectedDoc(doc: Document, field: string, ts: seq<string>, t: string)
    requires |ts| <= |DocTags(doc, field)| && ts == DocTags(doc, field)[..|ts|]
    ensures Collected(DocPairs(doc, field)[..|ts|], t) == Repeat(doc, Occurrences(ts, t))
    decreases |ts|
  {
    if |ts| > 0 {
      var p := DocPairs(doc, field)[..|ts|];
      var init := ts[..|ts| - 1];
      assert p[..|p| - 1] == DocPairs(doc, field)[..|init|];
      assert init == DocTags(doc, field)[..|init|];
      CollectedDoc(doc, field, init, t);
    }
  }

  /** The documents collected for a tag are the reference grouping. */
  lemma {:induction false} CollectedTagged(docs: seq<Document>, field: string, t: string)
    ensures Collected(Pairs(docs, field), t) == Tagged(docs, field, t)
    decreases |docs|
  {
    if |docs| > 0 {
      var last := docs[|docs| - 1];
      CollectedTagged(docs[..|docs| - 1], field, t);
      CollectedAppend(Pairs(docs[..|docs| - 1], field), DocPairs(last, field), t);
      var ts := DocTags(last, field);
      assert ts == ts[..|ts|];
      assert DocPairs(last, field)[..|ts|] == DocPairs(last, field);
      CollectedDoc(last, field, ts, t);
    }
  }

  /** A tag is seen among the pairs exactly when some document lists it. */
  lemma SeenTags(docs: seq<Document>, field: string)
    ensures Distinct(FirstSeen(Pairs(docs, field)))
    ensures forall t :: t in FirstSeen(Pairs(docs, field)) <==> t in AllTags(docs, field)
  {
    var pairs := Pairs(docs, field);
    var a := AllTags(docs, field);
    FirstSeenTags(pairs);
    PairTags(docs, field);
    forall t
      ensures t in FirstSeen(pairs) <==> t in a
    {
      if t in a {
        var k :| 0 <= k < |a| && a[k] == t;
        assert pairs[k].0 == t;
      }
      if t in FirstSeen(pairs) {
        var k :| 0 <= k < |pairs| && pairs[k].0 == t;
        assert a[k] == t;
      }
    }
  }

  /**
   * The groups come in strictly ascending tag order, and a tag has a group
   * exactly when some document lists it.
   */
  lemma GroupTags(docs: seq<Document>, field: string)
    ensures var g := GroupByTag(docs, field);
      && (forall i, j :: 0 <= i < j < |g| ==> Below(g[i].tag, g[j].tag))
      && (forall t :: (exists i :: 0 <= i < |g| && g[i].tag == t) <==> t in AllTags(docs, field))
  {
    var seen := FirstSeen(Pairs(docs, field));
    var g := GroupByTag(docs, field);
    SeenTags(docs, field);
    SortDistinct(seen);
    var sorted := Sort(seen);
    assert forall i :: 0 <= i < |g| ==> g[i].tag == sorted[i];
    forall t
      ensures (exists i :: 0 <= i < |g| && g[i].tag == t) <==> t in sorted
    {
      if t in sorted {
        var i :| 0 <= i < |sorted| && sorted[i] == t;
        assert g[i].tag == t;
      }
    }
  }

  /**
   * Each group holds the documents listing its tag, in collection order,
   * each once per occurrence of the tag in its list, and is never empty.
   */
  lemma GroupDocs(docs: seq<Document>, field: string, i: nat)
    requires i < |GroupByTag(docs, field)|
    ensures var g := GroupByTag(docs, field)[i];
      g.docs == Tagged(docs, field, g.tag) && |g.docs| > 0
  {
    var pairs := Pairs(docs, field);
    var g := GroupByTag(docs, field)[i];
    CollectedTagged(docs, field, g.tag);
    assert g.tag in multiset(Sort(FirstSeen(pairs)));
    CollectedNonEmpty(pairs, g.tag);
  }

  /** A document whose field is nil or `false` changes nothing. */
  lemma SkipsUntagged(docs: seq<Document>, doc: Document, field: string)
    requires field !in doc.data || doc.data[field] == False
    ensures GroupByTag(docs + [doc], field) == GroupByTag(docs, field)
  {
    PairsSnoc(docs, doc, field);
    assert Pairs(docs + [doc], field) == Pairs(docs, field);
  }
}
