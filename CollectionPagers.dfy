/**
 * `CollectionPager`: compiles one collection's template, builds the tag
 * pages of every tag (one per page of its documents), appends them to the
 * site and records, under `site.data['collection_pages']`, what a layout
 * needs to navigate between them.
 */
module CollectionPagers {
  import opened Results
  import opened Strings
  import opened Seqs
  import opened PathTemplates
  import opened TagPaths
  import opened TagPagers
  import opened TagGroups
  import Sorting
  import CC = CollectionConfigs

  /**
   * A tag page, as `build_page` creates it. The page keeps the template and
   * the tag it was built from; its directory, file name, slug and the URLs
   * of its neighbours are derived from them exactly as `build_page` derives
   * the attributes it passes on.
   */
  datatype TagPage = TagPage(
    template: string,
    title: string,
    layout: string,
    posts: seq<Document>,
    pageNum: int,
    paginator: Option<TagPager<Document>>)
  {
    /** `TagPath.new(@template, tag)`, slugifying the tag. */
    function Location(): TagPath {
      NewTagPath(template, title, true)
    }

    /** The `dir` attribute. */
    function Dir(): string {
      Location().DirFor(pageNum)
    }

    /** The `name` attribute. */
    function Name(): string {
      Location().FilenameFor(pageNum)
    }

    /** The `tag` attribute: the slug of the tag. */
    function Tag(): string {
      Location().tag
    }

    /** The paginator's `previous_page_path`, nil without a paginator. */
    function PreviousPagePath(): Option<string> {
      if paginator.Some? then Location().UrlFor(paginator.value.previousPage) else None
    }

    /** The paginator's `next_page_path`, nil without a paginator. */
    function NextPagePath(): Option<string> {
      if paginator.Some? then Location().UrlFor(paginator.value.nextPage) else None
    }
  }

  /** `{'pages' => tag_pages, 'index' => tag_pages.first}`. */
  datatype Label = Label(pages: seq<TagPage>, index: Option<TagPage>)

  /** What `set_metadata` records for one collection and field. */
  datatype FieldEntry = FieldEntry(
    template: string,
    permalink: Option<string>,
    labels: map<string, Label>,
    pages: map<string, seq<Document>>)

  /** `site.data['collection_pages']`: collection name, then tag field, to the recorded entry. */
  type Registry = map<string, map<string, FieldEntry>>

  /** The parts of a Jekyll site this plugin reads and changes. */
  class Site {
    const collections: map<string, seq<Document>>
    var pages: seq<TagPage>
    var collectionPages: Option<Registry>  // None while `data['collection_pages']` is unset

    constructor(collections: map<string, seq<Document>>, pages: seq<TagPage>, collectionPages: Option<Registry>)
      ensures this.collections == collections && this.pages == pages && this.collectionPages == collectionPages
    {
      this.collections := collections;
      this.pages := pages;
      this.collectionPages := collectionPages;
    }
  }

  /** `collection_registry[field] = entry` after both `||= {}` steps: only that one entry changes. */
  function SetEntry(registry: Option<Registry>, collection: string, field: string, entry: FieldEntry): (r: Registry)
    ensures collection in r && field in r[collection] && r[collection][field] == entry
    ensures forall c :: c in r <==> c == collection || (registry.Some? && c in registry.value)
    ensures forall c :: c != collection && registry.Some? && c in registry.value ==> r[c] == registry.value[c]
    ensures forall f :: f in r[collection] <==>
              f == field || (registry.Some? && collection in registry.value && f in registry.value[collection])
    ensures forall f :: f != field && registry.Some? && collection in registry.value && f in registry.value[collection] ==>
              r[collection][f] == registry.value[collection][f]
  {
    var outer: Registry := if registry.Some? then registry.value else map[];
    var inner := if collection in outer then outer[collection] else map[];
    outer[collection := inner[field := entry]]
  }

  /** `!per_page.nil? && per_page.positive?`: whether the template must paginate. */
  predicate RequiresNum(perPage: Option<int>) {
    perPage.Some? && perPage.value > 0
  }

  /** A pager for one configured collection: `@config`, `@tags_with_docs`, `@template` and `@permalink`. */
  datatype CollectionPager = CollectionPager(
    config: CC.CollectionConfig,
    tagsWithDocs: seq<Group>,
    template: string,
    permalink: Option<string>)
  {
    /** `build_page(site, tag, posts_with_tag, page_num)`. */
    function BuildPage(tag: string, posts: seq<Document>, pageNum: int): (p: TagPage)
      ensures p.title == tag && p.pageNum == pageNum && p.layout == config.tagLayout && p.template == template
      ensures p.paginator.Some? <==> config.perPage.Some?
      ensures p.posts == NewTagPager(pageNum, config.perPage, posts).posts
      ensures p.paginator.Some? ==> p.paginator.value == NewTagPager(pageNum, config.perPage, posts)
    {
      var pager := NewTagPager(pageNum, config.perPage, posts);
      TagPage(template, tag, config.tagLayout, pager.posts, pageNum, if config.perPage.Some? then Some(pager) else None)
    }

    /** Pages 1 up to `m` of one tag. */
    function PagesUpTo(group: Group, m: nat): (r: seq<TagPage>)
      ensures |r| == m
      decreases m
    {
      if m == 0 then [] else PagesUpTo(group, m - 1) + [BuildPage(group.tag, group.docs, m)]
    }

    /** The pages of one tag, numbered from 1 up to its page count. */
    function PagesOf(group: Group): (r: seq<TagPage>)
      ensures |r| == CalculatePages(|group.docs|, config.perPage)
    {
      PagesUpTo(group, CalculatePages(|group.docs|, config.perPage))
    }

    /** Every page of `groups`, tag by tag. */
    function AllPages(groups: seq<Group>): seq<TagPage>
      decreases |groups|
    {
      if |groups| == 0 then [] else AllPages(groups[..|groups| - 1]) + PagesOf(groups[|groups| - 1])
    }

    /** `metadata_map` after `groups` are processed. */
    function LabelsMap(groups: seq<Group>): map<string, Label>
      decreases |groups|
    {
      if |groups| == 0 then map[]
      else
        var pages := PagesOf(groups[|groups| - 1]);
        LabelsMap(groups[..|groups| - 1])[groups[|groups| - 1].tag := Label(pages, if |pages| == 0 then None else Some(pages[0]))]
    }

    /** `documents_map` after `groups` are processed. */
    function DocumentsMap(groups: seq<Group>): map<string, seq<Document>>
      decreases |groups|
    {
      if |groups| == 0 then map[]
      else DocumentsMap(groups[..|groups| - 1])[groups[|groups| - 1].tag := groups[|groups| - 1].docs]
    }

    /** The entry `set_metadata` records. */
    function Entry(): FieldEntry {
      FieldEntry(template, permalink, LabelsMap(tagsWithDocs), DocumentsMap(tagsWithDocs))
    }

    /** The number of pages `calculate_pages` gives the groups, summed. */
    function PageTotal(groups: seq<Group>): nat
      decreases |groups|
    {
      if |groups| == 0 then 0 else PageTotal(groups[..|groups| - 1]) + CalculatePages(|groups[|groups| - 1].docs|, config.perPage)
    }

    /** Page `k + 1` of a tag sits at position `k` of its pages. */
    lemma {:induction false} PageAt(group: Group, m: nat, k: nat)
      requires k < m
      ensures PagesUpTo(group, m)[k] == BuildPage(group.tag, group.docs, k + 1)
      decreases m
    {
      if k < m - 1 {
        PageAt(group, m - 1, k);
      }
    }

    /** The documents of `pages`, one page after another. */
    function PostsOf(pages: seq<TagPage>): seq<Document>
      decreases |pages|
    {
      if |pages| == 0 then [] else PostsOf(pages[..|pages| - 1]) + pages[|pages| - 1].posts
    }

    /** The documents of a tag's first `m` pages are the pager's first `m` slices. */
    lemma {:induction false} PostsUpTo(group: Group, m: nat)
      ensures PostsOf(PagesUpTo(group, m)) == TagPagers.PagesUpTo(m, config.perPage, group.docs)
      decreases m
    {
      if m > 0 {
        PostsUpTo(group, m - 1);
        assert PagesUpTo(group, m)[..m - 1] == PagesUpTo(group, m - 1);
      }
    }

    /** The pages built for a tag hold, in page order, every document of the tag exactly once. */
    lemma PagesHoldGroup(group: Group)
      ensures PostsOf(PagesOf(group)) == group.docs
    {
      PostsUpTo(group, CalculatePages(|group.docs|, config.perPage));
      PagesCoverAll(config.perPage, group.docs);
    }

    /** `create_pages` adds exactly as many pages as `calculate_pages` gives all tags together. */
    lemma {:induction false} PageCount(groups: seq<Group>)
      ensures |AllPages(groups)| == PageTotal(groups)
      decreases |groups|
    {
      if |groups| > 0 {
        PageCount(groups[..|groups| - 1]);
      }
    }

    /**
     * The pages come tag by tag, in the order of the groups, and within a
     * tag by ascending page number: page `k + 1` of group `i` follows the
     * pages of the groups before it.
     */
    lemma {:induction false} PagePosition(groups: seq<Group>, i: nat, k: nat)
      requires i < |groups| && k < CalculatePages(|groups[i].docs|, config.perPage)
      ensures PageTotal(groups[..i]) + k < |AllPages(groups)|
      ensures AllPages(groups)[PageTotal(groups[..i]) + k] == BuildPage(groups[i].tag, groups[i].docs, k + 1)
      decreases |groups|
    {
      if i == |groups| - 1 {
        LastGroupPage(groups, k);
      } else {
        var init := groups[..|groups| - 1];
        TakeTake(groups, |groups| - 1, i);
        PagePosition(init, i, k);
        EarlierGroupPage(groups, PageTotal(groups[..i]) + k);
      }
    }

    /** Page `k + 1` of the last group follows the pages of all the groups before it. */
    lemma LastGroupPage(groups: seq<Group>, k: nat)
      requires |groups| > 0 && k < CalculatePages(|groups[|groups| - 1].docs|, config.perPage)
      ensures PageTotal(groups[..|groups| - 1]) + k < |AllPages(groups)|
      ensures AllPages(groups)[PageTotal(groups[..|groups| - 1]) + k] == BuildPage(groups[|groups| - 1].tag, groups[|groups| - 1].docs, k + 1)
    {
      var init := groups[..|groups| - 1];
      var last := groups[|groups| - 1];
      PageCount(init);
      PageAt(last, CalculatePages(|last.docs|, config.perPage), k);
      AppendIndexRight(AllPages(init), PagesOf(last), PageTotal(init) + k);
    }

    /** A position among the pages of all groups but the last is the same position among the pages of all groups. */
    lemma EarlierGroupPage(groups: seq<Group>, n: nat)
      requires |groups| > 0 && n < |AllPages(groups[..|groups| - 1])|
      ensures n < |AllPages(groups)| && AllPages(groups)[n] == AllPages(groups[..|groups| - 1])[n]
    {
      AppendIndexLeft(AllPages(groups[..|groups| - 1]), PagesOf(groups[|groups| - 1]), n);
    }

    /** The tags of the groups, in order. */
    function TagsOf(groups: seq<Group>): (r: seq<string>)
      ensures |r| == |groups| && forall i :: 0 <= i < |groups| ==> r[i] == groups[i].tag
    {
      seq(|groups|, i requires 0 <= i < |groups| => groups[i].tag)
    }

    /** Both maps have exactly the groups' tags as keys. */
    lemma {:induction false} MapKeys(groups: seq<Group>)
      ensures forall t :: t in LabelsMap(groups) <==> t in TagsOf(groups)
      ensures forall t :: t in DocumentsMap(groups) <==> t in TagsOf(groups)
      decreases |groups|
    {
      if |groups| > 0 {
        var init := groups[..|groups| - 1];
        MapKeys(init);
        assert TagsOf(groups) == TagsOf(init) + [groups[|groups| - 1].tag];
      }
    }

    /**
     * With distinct tags, `labels[tag]` holds the tag's pages and their
     * first page, and `pages[tag]` its whole document list.
     */
    lemma {:induction false} GroupEntry(groups: seq<Group>, i: nat)
      requires forall j, k :: 0 <= j < k < |groups| ==> groups[j].tag != groups[k].tag
      requires i < |groups|
      ensures groups[i].tag in LabelsMap(groups) && groups[i].tag in DocumentsMap(groups)
      ensures var pages := PagesOf(groups[i]);
        LabelsMap(groups)[groups[i].tag] == Label(pages, if |pages| == 0 then None else Some(pages[0]))
      ensures DocumentsMap(groups)[groups[i].tag] == groups[i].docs
      decreases |groups|
    {
      if i < |groups| - 1 {
        var init := groups[..|groups| - 1];
        assert init[i] == groups[i];
        GroupEntry(init, i);
        assert groups[i].tag != groups[|groups| - 1].tag;
      }
    }

    /** A tag with documents has at least one page, and its index is page 1. */
    lemma IndexIsFirstPage(group: Group)
      requires |group.docs| > 0
      ensures |PagesOf(group)| > 0
      ensures PagesOf(group)[0] == BuildPage(group.tag, group.docs, 1)
      ensures PagesOf(group)[0].pageNum == 1
    {
      PageAt(group, |PagesOf(group)|, 0);
    }

    /** Without pagination every tag gets exactly one page, numbered 1, showing all its documents, without a paginator. */
    lemma OnePageWithoutPagination(group: Group)
      requires config.perPage.None?
      ensures |PagesOf(group)| == 1
      ensures PagesOf(group)[0].pageNum == 1 && PagesOf(group)[0].posts == group.docs
      ensures PagesOf(group)[0].paginator.None?
    {
      NoPaginationOnePage(1, config.perPage, group.docs);
    }

    /**
     * A paginated page links to the neighbouring pages' URLs, and has no
     * link exactly at the first and at the last page.
     */
    lemma NavigationPaths(tag: string, posts: seq<Document>, pageNum: int)
      requires config.perPage.Some?
      ensures var p := BuildPage(tag, posts, pageNum); var total := CalculatePages(|posts|, config.perPage);
        && p.paginator.Some?
        && (p.PreviousPagePath().None? <==> pageNum <= 1)
        && (p.PreviousPagePath().Some? ==> p.PreviousPagePath() == p.Location().UrlFor(Some(pageNum - 1)))
        && (p.NextPagePath().None? <==> pageNum >= total)
        && (p.NextPagePath().Some? ==> p.NextPagePath() == p.Location().UrlFor(Some(pageNum + 1)))
    {
      NavigationInRange(pageNum, config.perPage, posts);
      var n := PerPageValue(config.perPage);
      assert CalculatePages(|posts|, Some(if n > 0 then n else 0)) == CalculatePages(|posts|, config.perPage);
    }

    /** Processing group `i` extends the pages and both maps by that group. */
    lemma OneMoreGroup(groups: seq<Group>, i: nat)
      requires i < |groups|
      ensures AllPages(groups[..i + 1]) == AllPages(groups[..i]) + PagesOf(groups[i])
      ensures DocumentsMap(groups[..i + 1]) == DocumentsMap(groups[..i])[groups[i].tag := groups[i].docs]
      ensures var pages := PagesOf(groups[i]);
        LabelsMap(groups[..i + 1]) == LabelsMap(groups[..i])[groups[i].tag := Label(pages, if |pages| == 0 then None else Some(pages[0]))]
    {
      TakeTake(groups, i + 1, i);
    }

    /** `create_pages`: appends the pages of every tag, then records the metadata. */
    method CreatePages(site: Site)
      modifies site
      ensures site.pages == old(site.pages) + AllPages(tagsWithDocs)
      ensures site.collectionPages == Some(SetEntry(old(site.collectionPages), config.collectionName, config.tagField, Entry()))
    {
      var documentsMap: map<string, seq<Document>> := map[];
      var metadataMap: map<string, Label> := map[];
      var i := 0;
      while i < |tagsWithDocs|
        invariant 0 <= i <= |tagsWithDocs|
        invariant site.pages == old(site.pages) + AllPages(tagsWithDocs[..i])
        invariant documentsMap == DocumentsMap(tagsWithDocs[..i])
        invariant metadataMap == LabelsMap(tagsWithDocs[..i])
        invariant site.collectionPages == old(site.collectionPages)
      {
        var group := tagsWithDocs[i];
        var tagPages := AddTagPages(site, group);
        documentsMap := documentsMap[group.tag := group.docs];
        metadataMap := metadataMap[group.tag := Label(tagPages, if |tagPages| == 0 then None else Some(tagPages[0]))];
        OneMoreGroup(tagsWithDocs, i);
        SeqAssoc(old(site.pages), AllPages(tagsWithDocs[..i]), tagPages);
        i := i + 1;
      }
      TakeAll(tagsWithDocs);
      SetMetadata(site, documentsMap, metadataMap);
    }

    /** The inner loop of `create_pages`: builds pages 1 up to the tag's page count, appending each to the site. */
    method AddTagPages(site: Site, group: Group) returns (tagPages: seq<TagPage>)
      modifies site
      ensures tagPages == PagesOf(group)
      ensures site.pages == old(site.pages) + tagPages
      ensures site.collectionPages == old(site.collectionPages)
    {
      var pageCount := CalculatePages(|group.docs|, config.perPage);
      tagPages := [];
      var pageNum := 1;
      while pageNum <= pageCount
        invariant 1 <= pageNum <= pageCount + 1
        invariant tagPages == PagesUpTo(group, pageNum - 1)
        invariant site.pages == old(site.pages) + tagPages
        invariant site.collectionPages == old(site.collectionPages)
      {
        var tagPage := BuildPage(group.tag, group.docs, pageNum);
        SeqAssoc(old(site.pages), tagPages, [tagPage]);
        site.pages := site.pages + [tagPage];
        tagPages := tagPages + [tagPage];
        pageNum := pageNum + 1;
      }
    }

    /** `set_metadata(documents_map, metadata_map)`. */
    method SetMetadata(site: Site, documentsMap: map<string, seq<Document>>, metadataMap: map<string, Label>)
      modifies site
      ensures site.pages == old(site.pages)
      ensures site.collectionPages ==
                Some(SetEntry(old(site.collectionPages), config.collectionName, config.tagField,
                              FieldEntry(template, permalink, metadataMap, documentsMap)))
    {
      if site.collectionPages.None? {
        site.collectionPages := Some(map[]);
      }
      var registry := site.collectionPages.value;
      var collectionRegistry := if config.collectionName in registry then registry[config.collectionName] else map[];
      collectionRegistry := collectionRegistry[config.tagField := FieldEntry(template, permalink, metadataMap, documentsMap)];
      site.collectionPages := Some(registry[config.collectionName := collectionRegistry]);
    }
  }

  /** `CollectionPager.new(site, config)`, stated as a value: the pager, or the template error raised. */
  function PagerFor(collections: map<string, seq<Document>>, config: CC.CollectionConfig): Result<CollectionPager, TemplateError> {
    var requireNum := RequiresNum(config.perPage);
    var effective :- EffectiveTemplate(config.tagBasePath, config.collectionName, requireNum);
    var template := PathTemplate(config.tagField, config.collectionName, requireNum, effective).Template();
    Success(CollectionPager(config, TagsWithDocs(collections, config.collectionName, config.tagField), template,
                            NewTagPath(template, FieldToken, false).UrlFor(Some(1))))
  }

  /** `CollectionPager.new(site, config)`. */
  method NewCollectionPager(site: Site, config: CC.CollectionConfig) returns (r: Result<CollectionPager, TemplateError>)
    ensures r == PagerFor(site.collections, config)
  {
    var tagsWithDocs := SortedTags(site.collections, config.collectionName, config.tagField);
    var pathTemplate := NewPathTemplate(config.tagBasePath, config.tagField, config.collectionName, RequiresNum(config.perPage));
    if pathTemplate.Failure? {
      return Failure(pathTemplate.error);
    }
    var template := pathTemplate.value.Template();
    var permalink := NewTagPath(template, FieldToken, false).UrlFor(Some(1));
    r := Success(CollectionPager(config, tagsWithDocs, template, permalink));
  }

  /**
   * Creating a pager fails exactly when the template does not compile, with
   * the same error; otherwise `@template` is the compiled template, which
   * must paginate exactly when `per_page` is positive.
   */
  lemma PagerTemplate(collections: map<string, seq<Document>>, config: CC.CollectionConfig)
    ensures var r := PagerFor(collections, config);
      var e := EffectiveTemplate(config.tagBasePath, config.collectionName, RequiresNum(config.perPage));
      && (r.Success? <==> e.Success?)
      && (r.Failure? ==> r.error == e.error)
      && (r.Success? ==> r.value.template == "/" + e.value
                         && WellFormed(e.value, RequiresNum(config.perPage))
                         && r.value.tagsWithDocs == TagsWithDocs(collections, config.collectionName, config.tagField)
                         && r.value.config == config)
  {
    CompiledTemplateValid(config.tagBasePath, config.collectionName, RequiresNum(config.perPage));
  }

  /** For an accepted configuration, pagination is required exactly when `paginate` is set. */
  lemma PaginationRequiredIffSet(entry: CC.Entry)
    requires CC.NewCollectionConfig(entry).Success?
    ensures RequiresNum(CC.NewCollectionConfig(entry).value.perPage) <==> CC.NewCollectionConfig(entry).value.perPage.Some?
  {
  }

  /**
   * The permalink is the URL of page 1 with the placeholder `:field` kept
   * as it is: a site-absolute URL, and for a directory-style template the
   * page-1 directory between slashes.
   */
  lemma PermalinkShape(collections: map<string, seq<Document>>, config: CC.CollectionConfig)
    requires PagerFor(collections, config).Success?
    ensures var pager := PagerFor(collections, config).value; var t := NewTagPath(pager.template, FieldToken, false);
      && t.tag == FieldToken
      && pager.permalink.Some? && |pager.permalink.value| > 0 && pager.permalink.value[0] == '/'
      && (t.FilenameFor(1) == IndexFile ==>
            pager.permalink == Some(if t.DirSegments(1) == [] then "/" else "/" + JoinWith(t.DirSegments(1), "/") + "/"))
  {
    var pager := PagerFor(collections, config).value;
    assert pager.permalink == NewTagPath(pager.template, FieldToken, false).UrlFor(Some(1));
    PlaceholderPageOne(pager.template);
  }

  /** Page 1 of a template resolved for the literal `:field`. */
  lemma PlaceholderPageOne(template: string)
    ensures var t := NewTagPath(template, FieldToken, false); var url := t.UrlFor(Some(1));
      && t.tag == FieldToken
      && url.Some? && |url.value| > 0 && url.value[0] == '/'
      && (t.FilenameFor(1) == IndexFile ==>
            url == Some(if t.DirSegments(1) == [] then "/" else "/" + JoinWith(t.DirSegments(1), "/") + "/"))
  {
    var t := NewTagPath(template, FieldToken, false);
    assert IsSegment(FieldToken) by {
      assert FieldToken == [':', 'f', 'i', 'e', 'l', 'd'];
    }
    CleanUrl(t, 1);
  }

  /** A missing collection yields no pages and empty `labels` and `pages`, while the template and permalink are still recorded. */
  lemma MissingCollectionEmpty(collections: map<string, seq<Document>>, config: CC.CollectionConfig)
    requires PagerFor(collections, config).Success? && config.collectionName !in collections
    ensures var pager := PagerFor(collections, config).value;
      && pager.AllPages(pager.tagsWithDocs) == []
      && pager.Entry() == FieldEntry(pager.template, pager.permalink, map[], map[])
  {
  }

  /**
   * For a pager over an existing collection, every tag found gets its
   * labels entry, whose index is its page 1, and its pages entry, which is
   * the reference grouping of the collection's documents for that tag.
   */
  lemma TagEntries(collections: map<string, seq<Document>>, config: CC.CollectionConfig, i: nat)
    requires PagerFor(collections, config).Success?
    requires i < |PagerFor(collections, config).value.tagsWithDocs|
    ensures var pager := PagerFor(collections, config).value; var g := pager.tagsWithDocs[i];
      && config.collectionName in collections
      && g.tag in pager.Entry().labels && g.tag in pager.Entry().pages
      && pager.Entry().labels[g.tag].pages == pager.PagesOf(g)
      && pager.Entry().labels[g.tag].index == Some(pager.BuildPage(g.tag, g.docs, 1))
      && pager.Entry().pages[g.tag] == g.docs == Tagged(collections[config.collectionName], config.tagField, g.tag)
  {
    var pager := PagerFor(collections, config).value;
    var docs := collections[config.collectionName];
    var groups := pager.tagsWithDocs;
    GroupTags(docs, config.tagField);
    GroupDocs(docs, config.tagField, i);
    forall j, k | 0 <= j < k < |groups|
      ensures groups[j].tag != groups[k].tag
    {
      Sorting.BelowIrreflexive(groups[j].tag);
    }
    pager.GroupEntry(groups, i);
    pager.IndexIsFirstPage(groups[i]);
  }
}
