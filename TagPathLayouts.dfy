/**
 * The two shapes of template the resolver is built for, worked out for any
 * base directory of plain names and any tag: one directory per page
 * (`<base>/:field/page:num/index.html`) and one file per tag
 * (`<base>/:field.html`).
 */
module TagPathLayouts {
  import opened Results
  import opened Strings
  import opened Seqs
  import opened Slug
  import opened PathTemplates
  import opened TagPaths

  /** A name without placeholders: a segment with no ':' that does not name an HTML file. */
  predicate Plain(x: string) {
    IsSegment(x) && ':' !in x && !IsFileName(x)
  }

  predicate AllPlain(xs: seq<string>) {
    forall i :: 0 <= i < |xs| ==> Plain(xs[i])
  }

  /** The file segment of a per-tag file template. */
  const FieldFile: string := FieldToken + ".html"

  /** The segments of `<base>/:field/page:num/index.html`. */
  function DirParts(base: seq<string>): seq<string> {
    (base + [FieldToken]) + [PageSegment, IndexFile]
  }

  /** `/<base>/:field/page:num/index.html`. */
  function DirTemplate(base: seq<string>): string {
    "/" + JoinWith(DirParts(base), "/")
  }

  /** The segments of `<base>/:field.html`. */
  function FileParts(base: seq<string>): seq<string> {
    base + [FieldFile]
  }

  /** `/<base>/:field.html`. */
  function FileTemplate(base: seq<string>): string {
    "/" + JoinWith(FileParts(base), "/")
  }

  // Facts about the fixed segments, each proved on its own.

  lemma TokenHeads()
    ensures |FieldToken| > 0 && FieldToken[0] == ':' && |NumToken| > 0 && NumToken[0] == ':'
  {
  }

  lemma IndexFileFacts()
    ensures IsSegment(IndexFile) && ':' !in IndexFile && IsFileName(IndexFile)
  {
    assert IndexFile[|IndexFile| - 5..] == ".html";
  }

  lemma IndexFileKept(token: string, value: string)
    requires |token| > 0 && token[0] == ':'
    ensures Substitute(IndexFile, token, value) == IndexFile
  {
    IndexFileFacts();
    Unmatched(IndexFile, token);
  }

  lemma FieldSegmentFilled(tag: string)
    ensures IsSegment(FieldToken)
    ensures Substitute(FieldToken, FieldToken, tag) == tag
  {
    assert FieldToken == [':', 'f', 'i', 'e', 'l', 'd'];
    assert FieldToken[..|FieldToken|] == FieldToken;
    Unmatched("", FieldToken);
    ReplaceAllOnce("", FieldToken, tag, "");
    assert "" + FieldToken + "" == FieldToken;
    assert "" + tag + "" == tag;
  }

  lemma PageSegmentKept(tag: string)
    ensures IsSegment(PageSegment)
    ensures Substitute(PageSegment, FieldToken, tag) == PageSegment
  {
    PageSegmentPieces();
    PieceFacts("page", NumToken, FieldToken);
  }

  lemma PageSegmentNumbered(s: string)
    ensures Contains(PageSegment, NumToken)
    ensures Substitute(PageSegment, NumToken, s) == "page" + s
  {
    PageSegmentPieces();
    PieceFacts("page", NumToken, NumToken);
    Unmatched("", NumToken);
    ReplaceAllOnce("page", NumToken, s, "");
    assert "page" + NumToken + "" == PageSegment;
    assert "page" + s + "" == "page" + s;
  }

  lemma PageNameSegment(s: string)
    requires '/' !in s
    ensures IsSegment("page" + s)
  {
    assert forall c :: c in "page" + s ==> c in "page" || c in s;
  }

  lemma FieldFileFacts()
    ensures IsSegment(FieldFile) && IsFileName(FieldFile)
  {
    assert FieldFile == [':', 'f', 'i', 'e', 'l', 'd', '.', 'h', 't', 'm', 'l'];
    assert FieldFile[|FieldFile| - 5..] == ".html";
  }

  lemma FieldFileFilled(tag: string)
    ensures Contains(FieldFile, FieldToken)
    ensures Substitute(FieldFile, FieldToken, tag) == tag + ".html"
  {
    assert FieldFile[0..|FieldToken|] == FieldToken;
    ContainsAt(FieldFile, FieldToken, 0);
    Unmatched(".html", FieldToken);
    ReplaceAllOnce("", FieldToken, tag, ".html");
    assert "" + FieldToken + ".html" == FieldFile;
    assert "" + tag + ".html" == tag + ".html";
  }

  /** The file a per-tag template names: no ':' when the tag has none, and an HTML file. */
  lemma TagFileFacts(tag: string)
    requires ':' !in tag
    ensures ':' !in tag + ".html" && IsFileName(tag + ".html")
  {
    var name := tag + ".html";
    assert name[|name| - 5..] == ".html";
    assert forall c :: c in name ==> c in tag || c in ".html";
  }

  /** Only the tag `index` makes a per-tag file named `index.html`. */
  lemma IndexNameOnly(tag: string)
    ensures tag + ".html" == IndexFile ==> tag == "index"
  {
    if tag + ".html" == IndexFile {
      assert tag == (tag + ".html")[..|tag|];
      assert IndexFile[..5] == "index";
    }
  }

  // Facts about lists of segments.

  lemma AllPlainSegments(xs: seq<string>)
    requires AllPlain(xs)
    ensures AllSegments(xs)
  {
  }

  lemma PlainSnoc(xs: seq<string>, x: string)
    requires AllPlain(xs) && Plain(x)
    ensures AllPlain(xs + [x])
  {
  }

  lemma SubstituteAllAppend(xs: seq<string>, ys: seq<string>, token: string, value: string)
    requires |token| > 0
    ensures SubstituteAll(xs + ys, token, value) == SubstituteAll(xs, token, value) + SubstituteAll(ys, token, value)
  {
  }

  lemma SubstituteAllOne(x: string, token: string, value: string)
    requires |token| > 0
    ensures SubstituteAll([x], token, value) == [Substitute(x, token, value)]
  {
  }

  lemma SubstituteAllTwo(x: string, y: string, token: string, value: string)
    requires |token| > 0
    ensures SubstituteAll([x, y], token, value) == [Substitute(x, token, value), Substitute(y, token, value)]
  {
  }

  /** Substituting a placeholder into plain names changes nothing. */
  lemma SubstituteAllPlain(xs: seq<string>, token: string, value: string)
    requires AllPlain(xs) && |token| > 0 && token[0] == ':'
    ensures SubstituteAll(xs, token, value) == xs
  {
    forall i | 0 <= i < |xs|
      ensures !Contains(xs[i], token)
    {
      Unmatched(xs[i], token);
    }
    SubstituteAbsent(xs, token, value);
  }

  /** The first segment holding `token` is the first of `ys`, when no segment of `xs` holds it. */
  lemma FirstWithAt(xs: seq<string>, ys: seq<string>, token: string)
    requires forall i :: 0 <= i < |xs| ==> !Contains(xs[i], token)
    requires |ys| > 0 && Contains(ys[0], token)
    ensures FirstWith(xs + ys, token) == Some(|xs|)
  {
    var k := FirstWith(xs + ys, token);
    AppendIndexRight(xs, ys, |xs|);
    assert Contains((xs + ys)[|xs|], token);
    forall i | 0 <= i < |xs|
      ensures !Contains((xs + ys)[i], token)
    {
      AppendIndexLeft(xs, ys, i);
    }
  }

  /** A page name with no ':' after plain names: no segment holds `:num`. */
  lemma FileNoNum(base: seq<string>, name: string)
    requires AllPlain(base) && ':' !in name
    ensures FirstWith(base + [name], NumToken) == None
  {
    TokenHeads();
    var f := base + [name];
    forall i | 0 <= i < |f|
      ensures !Contains(f[i], NumToken)
    {
      if i < |base| {
        AppendIndexLeft(base, [name], i);
      }
      Unmatched(f[i], NumToken);
    }
  }

  /** A leading '/' adds no piece. */
  lemma LeadingSlashSplit(x: string)
    ensures Split("/" + x) == Split(x)
  {
    var s := "/" + x;
    assert SlashIndex(s) == 0;
    SplitAtSlash(s, 0);
    assert s[..0] == "" && s[1..] == x;
  }

  /** A template written as its segments joined by '/' after a leading '/' splits back into them. */
  lemma TemplateSegments(parts: seq<string>)
    requires AllSegments(parts)
    ensures Split("/" + JoinWith(parts, "/")) == parts
  {
    LeadingSlashSplit(JoinWith(parts, "/"));
    SplitJoin(parts);
  }

  // The directory-per-page shape.

  /** The resolver of a directory template, with its tag. */
  function DirPath(base: seq<string>, value: string, slugify: bool): TagPath {
    NewTagPath(DirTemplate(base), value, slugify)
  }

  /** A directory template splits into its segments and is not an explicit file. */
  lemma DirSplit(base: seq<string>, value: string, slugify: bool)
    requires AllPlain(base)
    ensures DirPath(base, value, slugify).segments == DirParts(base)
    ensures !DirPath(base, value, slugify).explicitFile
  {
    var parts := DirParts(base);
    AllPlainSegments(base);
    FieldSegmentFilled("");
    PageSegmentKept("");
    IndexFileFacts();
    SegmentsAppend(base, [FieldToken]);
    SegmentsAppend(base + [FieldToken], [PageSegment, IndexFile]);
    TemplateSegments(parts);
    AppendIndexRight(base + [FieldToken], [PageSegment, IndexFile], |parts| - 1);
    TokenHeads();
    Unmatched(IndexFile, FieldToken);
  }

  /** Every page of a directory template is named `index.html`. */
  lemma DirFilename(t: TagPath, base: seq<string>, n: int)
    requires t.segments == DirParts(base) && !t.explicitFile
    ensures t.FilenameFor(n) == IndexFile
  {
    TokenHeads();
    AppendIndexRight(base + [FieldToken], [PageSegment, IndexFile], |t.segments| - 1);
    SubstituteAllOne(IndexFile, FieldToken, t.tag);
    IndexFileKept(FieldToken, t.tag);
    SubstituteAllOne(IndexFile, NumToken, IntToString(n));
    IndexFileKept(NumToken, IntToString(n));
    JoinOne(IndexFile, "");
  }

  /** The tag fills the `:field` segment of a directory template, and nothing else changes. */
  lemma DirFilled(t: TagPath, base: seq<string>)
    requires AllPlain(base) && t.segments == DirParts(base)
    ensures t.Filled() == (base + [t.tag]) + [PageSegment, IndexFile]
  {
    TokenHeads();
    SubstituteAllAppend(base + [FieldToken], [PageSegment, IndexFile], FieldToken, t.tag);
    SubstituteAllAppend(base, [FieldToken], FieldToken, t.tag);
    SubstituteAllPlain(base, FieldToken, t.tag);
    SubstituteAllOne(FieldToken, FieldToken, t.tag);
    FieldSegmentFilled(t.tag);
    SubstituteAllTwo(PageSegment, IndexFile, FieldToken, t.tag);
    PageSegmentKept(t.tag);
    IndexFileKept(FieldToken, t.tag);
  }

  /** Page 1 of a directory template lives in `<base>/<tag>`. */
  lemma DirPageOne(t: TagPath, base: seq<string>)
    requires AllPlain(base) && t.segments == DirParts(base) && Plain(t.tag)
    ensures t.DirSegments(1) == base + [t.tag]
  {
    TokenHeads();
    DirFilled(t, base);
    var head := base + [t.tag];
    PlainSnoc(base, t.tag);
    forall i | 0 <= i < |head|
      ensures !Contains(head[i], NumToken)
    {
      Unmatched(head[i], NumToken);
    }
    PageSegmentNumbered("");
    FirstWithAt(head, [PageSegment, IndexFile], NumToken);
    TakeAppend(head, [PageSegment, IndexFile], |head|);
    TakeAll(head);
  }

  /** Numbering the filled directory template turns `page:num` into `page<s>`. */
  lemma DirNumbered(t: TagPath, base: seq<string>, s: string)
    requires AllPlain(base) && t.segments == DirParts(base) && Plain(t.tag)
    ensures SubstituteAll(t.Filled(), NumToken, s) == (base + [t.tag]) + ["page" + s, IndexFile]
  {
    TokenHeads();
    DirFilled(t, base);
    var head := base + [t.tag];
    PlainSnoc(base, t.tag);
    SubstituteAllAppend(head, [PageSegment, IndexFile], NumToken, s);
    SubstituteAllPlain(head, NumToken, s);
    SubstituteAllTwo(PageSegment, IndexFile, NumToken, s);
    PageSegmentNumbered(s);
    IndexFileKept(NumToken, s);
  }

  /** Any other page of a directory template lives in `<base>/<tag>/page<n>`. */
  lemma DirOtherPage(t: TagPath, base: seq<string>, n: int)
    requires AllPlain(base) && t.segments == DirParts(base) && Plain(t.tag) && n != 1
    ensures t.DirSegments(n) == (base + [t.tag]) + ["page" + IntToString(n)]
  {
    var head := base + [t.tag];
    var s := IntToString(n);
    DirNumbered(t, base, s);
    IndexFileFacts();
    var g := head + ["page" + s, IndexFile];
    AppendIndexRight(head, ["page" + s, IndexFile], |g| - 1);
    DropLastAppend(head, ["page" + s, IndexFile]);
    assert ["page" + s, IndexFile][..1] == ["page" + s];
  }

  /**
   * `<base>/:field/page:num/index.html`: page 1 is `index.html` in
   * `<base>/<tag>`, reached at `/<base>/<tag>/`.
   */
  lemma DirectoryLayoutPageOne(base: seq<string>, value: string, slugify: bool)
    requires AllPlain(base) && Plain(DirPath(base, value, slugify).tag)
    ensures var t := DirPath(base, value, slugify); var dir := JoinWith(base + [t.tag], "/");
      && t.DirFor(1) == dir
      && t.FilenameFor(1) == IndexFile
      && t.UrlFor(Some(1)) == Some("/" + dir + "/")
  {
    var t := DirPath(base, value, slugify);
    DirSplit(base, value, slugify);
    DirFilename(t, base, 1);
    DirPageOne(t, base);
    PlainSnoc(base, t.tag);
    AllPlainSegments(base + [t.tag]);
    FileJoinOfSegments(base + [t.tag]);
  }

  /**
   * `<base>/:field/page:num/index.html`: page `n` other than 1 is
   * `index.html` in `<base>/<tag>/page<n>`, reached at that directory
   * between slashes.
   */
  lemma DirectoryLayoutOtherPage(base: seq<string>, value: string, slugify: bool, n: int)
    requires AllPlain(base) && Plain(DirPath(base, value, slugify).tag) && n != 1
    ensures var t := DirPath(base, value, slugify); var dir := JoinWith((base + [t.tag]) + ["page" + IntToString(n)], "/");
      && t.DirFor(n) == dir
      && t.FilenameFor(n) == IndexFile
      && t.UrlFor(Some(n)) == Some("/" + dir + "/")
  {
    var t := DirPath(base, value, slugify);
    DirSplit(base, value, slugify);
    DirFilename(t, base, n);
    DirOtherPage(t, base, n);
    var head := base + [t.tag];
    PlainSnoc(base, t.tag);
    AllPlainSegments(head);
    PageNameSegment(IntToString(n));
    SegmentsAppend(head, ["page" + IntToString(n)]);
    FileJoinOfSegments(head + ["page" + IntToString(n)]);
  }

  // The file-per-tag shape.

  /** The resolver of a per-tag file template, with its tag. */
  function FilePath(base: seq<string>, value: string, slugify: bool): TagPath {
    NewTagPath(FileTemplate(base), value, slugify)
  }

  /** A per-tag file template splits into its segments and is an explicit file. */
  lemma FileSplit(base: seq<string>, value: string, slugify: bool)
    requires AllPlain(base)
    ensures FilePath(base, value, slugify).segments == FileParts(base)
    ensures FilePath(base, value, slugify).explicitFile
  {
    AllPlainSegments(base);
    FieldFileFacts();
    SegmentsAppend(base, [FieldFile]);
    TemplateSegments(FileParts(base));
    FieldFileFilled("");
  }

  /** The tag fills the file segment: `<tag>.html`. */
  lemma FileFilled(t: TagPath, base: seq<string>)
    requires AllPlain(base) && t.segments == FileParts(base)
    ensures t.Filled() == base + [t.tag + ".html"]
  {
    TokenHeads();
    SubstituteAllAppend(base, [FieldFile], FieldToken, t.tag);
    SubstituteAllPlain(base, FieldToken, t.tag);
    SubstituteAllOne(FieldFile, FieldToken, t.tag);
    FieldFileFilled(t.tag);
  }

  /** Page 1 of a per-tag file template lives in `<base>`. */
  lemma FilePageOne(t: TagPath, base: seq<string>)
    requires AllPlain(base) && t.segments == FileParts(base) && Plain(t.tag)
    ensures t.DirSegments(1) == base
  {
    FileFilled(t, base);
    var name := t.tag + ".html";
    TagFileFacts(t.tag);
    FileNoNum(base, name);
    TakeAppend(base, [name], |base|);
    TakeAll(base);
  }

  /** Page 1 of a per-tag file template is named `<tag>.html`. */
  lemma FilePageOneName(t: TagPath, base: seq<string>)
    requires t.segments == FileParts(base) && t.explicitFile
    ensures t.FilenameFor(1) == t.tag + ".html"
  {
    SubstituteAllOne(FieldFile, FieldToken, t.tag);
    FieldFileFilled(t.tag);
    JoinOne(t.tag + ".html", "");
  }

  /**
   * `<base>/:field.html`: page 1 is the file `<tag>.html` in `<base>`,
   * reached at `/<base>/<tag>.html`, or at `/<tag>.html` without a base.
   */
  lemma FileLayoutPageOne(base: seq<string>, value: string, slugify: bool)
    requires AllPlain(base) && Plain(FilePath(base, value, slugify).tag) && FilePath(base, value, slugify).tag != "index"
    ensures var t := FilePath(base, value, slugify); var name := t.tag + ".html";
      && t.DirFor(1) == JoinWith(base, "/")
      && t.FilenameFor(1) == name
      && t.UrlFor(Some(1)) == Some(if base == [] then "/" + name else "/" + JoinWith(base, "/") + "/" + name)
  {
    var t := FilePath(base, value, slugify);
    FileSplit(base, value, slugify);
    FilePageOne(t, base);
    FilePageOneName(t, base);
    IndexNameOnly(t.tag);
    AllPlainSegments(base);
    FileJoinOfSegments(base);
  }

  // The cases `/docs/category/:field/page:num/index.html` and
  // `/docs/category/:field.html` with the tag `Alpha Tag`.

  /** `docs` and `category` are plain names. */
  lemma ExampleBase()
    ensures AllPlain(["docs", "category"])
  {
    assert !IsFileName("docs") && !IsFileName("category");
  }

  /** `Alpha Tag` slugs to the plain name `alpha-tag`. */
  lemma ExampleTag()
    ensures Slugify("Alpha Tag") == "alpha-tag" && Plain("alpha-tag")
  {
    SlugExample();
    SlugPlain("Alpha Tag");
  }

  lemma ExampleDirJoin()
    ensures JoinWith(["docs", "category"], "/") == "docs/category"
    ensures JoinWith(["docs", "category", "alpha-tag"], "/") == "docs/category/alpha-tag"
  {
    assert ["docs", "category", "alpha-tag"][..2] == ["docs", "category"];
  }

  // The fixed texts of the examples, assembled from their parts.

  lemma UrlTextOne()
    ensures "/" + "docs/category/alpha-tag" + "/" == "/docs/category/alpha-tag/"
  {
  }

  lemma FileNameText()
    ensures "alpha-tag" + ".html" == "alpha-tag.html"
    ensures "/" + "docs/category" + "/" + "alpha-tag.html" == "/docs/category/alpha-tag.html"
  {
  }

  lemma LaterDirText(s: string)
    ensures "docs/category/alpha-tag" + "/" + ("page" + s) == "docs/category/alpha-tag/page" + s
  {
    SeqAssoc("docs/category/alpha-tag" + "/", "page", s);
    assert "docs/category/alpha-tag" + "/" + "page" == "docs/category/alpha-tag/page";
  }

  lemma LaterUrlText(s: string)
    ensures "/" + ("docs/category/alpha-tag/page" + s) + "/" == "/docs/category/alpha-tag/page" + s + "/"
  {
    SeqAssoc("/", "docs/category/alpha-tag/page", s);
    assert "/" + "docs/category/alpha-tag/page" == "/docs/category/alpha-tag/page";
  }

  lemma ExampleHead(base: seq<string>)
    requires base == ["docs", "category"]
    ensures base + ["alpha-tag"] == ["docs", "category", "alpha-tag"]
  {
  }

  /**
   * The directory example's template, `/docs/category/:field/page:num/index.html`:
   * the base directory followed by the segments `:field`, `page:num` and `index.html`.
   */
  lemma DirTemplateText(base: seq<string>)
    requires base == ["docs", "category"]
    ensures DirTemplate(base) == "/docs/category/" + FieldToken + "/" + PageSegment + "/" + IndexFile
  {
    ExampleDirJoin();
    JoinSnoc(base, FieldToken, "/");
    JoinSnoc(base + [FieldToken], PageSegment, "/");
    JoinSnoc(base + [FieldToken] + [PageSegment], IndexFile, "/");
    assert DirParts(base) == base + [FieldToken] + [PageSegment] + [IndexFile];
    TemplateHead();
  }

  lemma TemplateHead()
    ensures "/" + ("docs/category" + "/") == "/docs/category/"
  {
  }

  /** The file example's template. */
  lemma FileTemplateText(base: seq<string>)
    requires base == ["docs", "category"]
    ensures FileTemplate(base) == "/docs/category/:field.html"
  {
    ExampleDirJoin();
    JoinSnoc(base, FieldFile, "/");
  }

  /** A slug that is not empty is a plain name. */
  lemma SlugPlain(value: string)
    requires |Slugify(value)| > 0
    ensures Plain(Slugify(value))
  {
    var r := Slugify(value);
    if |r| >= 4 {
      assert IsSlugChar(r[|r| - 4]);
      assert r[|r| - 4..][0] == r[|r| - 4];
      assert |r| >= 5 ==> r[|r| - 5..][0] == r[|r| - 5] && IsSlugChar(r[|r| - 5]);
    }
  }

  /** The directory example, page 1: `docs/category/alpha-tag/index.html` at `/docs/category/alpha-tag/`. */
  lemma ExamplePageOne(base: seq<string>, value: string)
    requires base == ["docs", "category"] && value == "Alpha Tag"
    ensures var t := DirPath(base, value, true);
      && t.template == "/docs/category/" + FieldToken + "/" + PageSegment + "/" + IndexFile
      && t.DirFor(1) == "docs/category/alpha-tag"
      && t.FilenameFor(1) == "index.html"
      && t.UrlFor(Some(1)) == Some("/docs/category/alpha-tag/")
  {
    DirTemplateText(base);
    ExampleBase();
    ExampleTag();
    DirectoryLayoutPageOne(base, value, true);
    ExampleHead(base);
    ExampleDirJoin();
    UrlTextOne();
  }

  /**
   * The directory example, any page `n` other than 1: its directory is
   * `docs/category/alpha-tag/page<n>`, reached at that directory between
   * slashes.
   */
  lemma ExampleOtherPages(base: seq<string>, value: string, n: int)
    requires base == ["docs", "category"] && value == "Alpha Tag" && n != 1
    ensures DirPath(base, value, true).DirFor(n) == "docs/category/alpha-tag/page" + IntToString(n)
    ensures DirPath(base, value, true).UrlFor(Some(n)) == Some("/docs/category/alpha-tag/page" + IntToString(n) + "/")
  {
    ExampleBase();
    ExampleTag();
    ExampleHead(base);
    ExampleDirJoin();
    DirectoryLayoutOtherPage(base, value, true, n);
    var s := IntToString(n);
    JoinSnoc(["docs", "category", "alpha-tag"], "page" + s, "/");
    LaterDirText(s);
    LaterUrlText(s);
  }

  /** The file example, page 1: `docs/category/alpha-tag.html` at `/docs/category/alpha-tag.html`. */
  lemma FileExamplePageOne(base: seq<string>, value: string)
    requires base == ["docs", "category"] && value == "Alpha Tag"
    ensures var t := FilePath(base, value, true);
      && t.template == "/docs/category/:field.html"
      && t.DirFor(1) == "docs/category"
      && t.FilenameFor(1) == "alpha-tag.html"
      && t.UrlFor(Some(1)) == Some("/docs/category/alpha-tag.html")
  {
    FileTemplateText(base);
    ExampleBase();
    ExampleTag();
    ExampleDirJoin();
    FileLayoutPageOne(base, value, true);
    FileNameText();
  }
}
