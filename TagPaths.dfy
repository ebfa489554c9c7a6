/**
 * `TagPath`: resolves a compiled template and one tag value into the
 * directory, the file name and the URL of each page of that tag.
 */
module TagPaths {
  import opened Results
  import opened Strings
  import opened Seqs
  import opened Slug
  import opened PathTemplates

  /** `segment.include?(token) ? segment.gsub(token, value) : segment`. */
  function Substitute(segment: string, token: string, value: string): string
    requires |token| > 0
  {
    if Contains(segment, token) then ReplaceAll(segment, token, value) else segment
  }

  /** `Substitute` on every segment, in order. */
  function SubstituteAll(segments: seq<string>, token: string, value: string): seq<string>
    requires |token| > 0
  {
    seq(|segments|, i requires 0 <= i < |segments| => Substitute(segments[i], token, value))
  }

  /** `drop_file_segment`: the list without its last segment when that names a file. */
  function DropFileSegment(segments: seq<string>): (r: seq<string>)
    ensures |segments| > 0 && IsFileName(segments[|segments| - 1]) ==> r == segments[..|segments| - 1]
    ensures !(|segments| > 0 && IsFileName(segments[|segments| - 1])) ==> r == segments
  {
    if |segments| > 0 && IsFileName(segments[|segments| - 1]) then segments[..|segments| - 1] else segments
  }

  /** `segments.index { |segment| segment.include?(token) }`. */
  function FirstWith(segments: seq<string>, token: string): (k: Option<nat>)
    ensures k.Some? ==> k.value < |segments| && Contains(segments[k.value], token)
    ensures forall i :: 0 <= i < (if k.Some? then k.value else |segments|) ==> !Contains(segments[i], token)
    decreases |segments|
  {
    if |segments| == 0 then None
    else if Contains(segments[0], token) then Some(0)
    else match FirstWith(segments[1..], token)
      case None => None
      case Some(k) => Some(k + 1)
  }

  /** Where the first segment holding `:num` sits, or the length when there is none. */
  function NumCut(f: seq<string>): (k: nat)
    ensures k <= |f|
    ensures forall i :: 0 <= i < k ==> !Contains(f[i], NumToken)
    ensures k < |f| ==> Contains(f[k], NumToken)
  {
    match FirstWith(f, NumToken)
    case Some(k) => k
    case None => |f|
  }

  /** `remove_paginated_segments`: the segments before the first one holding `:num`. */
  function RemovePaginatedSegments(segments: seq<string>): seq<string> {
    segments[..NumCut(segments)]
  }

  /** A template resolved for one tag: `@template`, `@tag`, `@segments` and `@explicit_file`. */
  datatype TagPath = TagPath(template: string, tag: string, segments: seq<string>, explicitFile: bool) {

    /** `apply_field_value(@segments)`. */
    function Filled(): seq<string> {
      SubstituteAll(segments, FieldToken, tag)
    }

    /** The directory segments of page `n`: `dir_for` before the final `File.join`. */
    function DirSegments(n: int): seq<string> {
      var filled := Filled();
      DropFileSegment(if n == 1 then RemovePaginatedSegments(filled) else SubstituteAll(filled, NumToken, IntToString(n)))
    }

    /** `dir_for(n)`. */
    function DirFor(n: int): string {
      FileJoin(DirSegments(n))
    }

    /** `filename_for(n)`. */
    function FilenameFor(n: int): string {
      var named := SubstituteAll(if |segments| == 0 then [] else [segments[|segments| - 1]], FieldToken, tag);
      if n == 1 then
        if explicitFile then JoinWith(named, "") else IndexFile
      else JoinWith(SubstituteAll(named, NumToken, IntToString(n)), "")
    }

    /** `url_for(n)`: nil for nil; otherwise a site-absolute URL, with a trailing '/' for an index file. */
    function UrlFor(n: Option<int>): (url: Option<string>)
      ensures url.Some? <==> n.Some?
      ensures url.Some? ==> |url.value| > 0 && url.value[0] == '/'
      ensures url.Some? && FilenameFor(n.value) == IndexFile ==> url.value[|url.value| - 1] == '/'
      ensures url.Some? && FilenameFor(n.value) != IndexFile ==> EndsWith(url.value, FilenameFor(n.value))
    {
      match n
      case None => None
      case Some(page) =>
        var dir := DirFor(page);
        var filename := FilenameFor(page);
        if filename == IndexFile then
          Some(if dir == "" then "/" else "/" + dir + "/")
        else
          var url := if dir == "" then "/" + filename else "/" + dir + "/" + filename;
          assert url[|url| - |filename|..] == filename;
          Some(url)
    }
  }

  /**
   * `TagPath.new(template, field_value, slugify_value:)`: the tag is the
   * slug of the value by default and the value verbatim otherwise; the
   * segments are the non-empty pieces of the template; the path is an
   * explicit per-tag file when its last segment names an HTML file
   * holding `:field`.
   */
  function NewTagPath(template: string, fieldValue: string, slugifyValue: bool): (t: TagPath)
    ensures t.template == template
    ensures t.tag == (if slugifyValue then Slugify(fieldValue) else fieldValue)
    ensures t.segments == Split(template)
    ensures t.explicitFile ==
      (|t.segments| > 0 && IsFileName(t.segments[|t.segments| - 1]) && Contains(t.segments[|t.segments| - 1], FieldToken))
    ensures AllSegments(t.segments)
    ensures slugifyValue ==> '/' !in t.tag
  {
    var segments := Split(template);
    SplitSegments(template);
    var last := if |segments| == 0 then "" else segments[|segments| - 1];
    TagPath(template, if slugifyValue then Slugify(fieldValue) else fieldValue, segments,
            |segments| > 0 && IsFileName(last) && Contains(last, FieldToken))
  }

  /**
   * The tag of "Alpha Tag" is "alpha-tag" by default and "Alpha Tag" with
   * slugging turned off; a tag that is already a slug is kept either way.
   */
  lemma TagOfValue(template: string, value: string)
    ensures NewTagPath(template, "Alpha Tag", true).tag == "alpha-tag"
    ensures NewTagPath(template, "Alpha Tag", false).tag == "Alpha Tag"
    ensures NewTagPath(template, Slugify(value), true).tag == NewTagPath(template, Slugify(value), false).tag
  {
    SlugExample();
    SlugifyIdempotent(value);
  }

  /** Substituting `token` changes only segments that hold it. */
  lemma SubstituteKeeps(segments: seq<string>, token: string, value: string, i: nat)
    requires |token| > 0 && i < |segments| && !Contains(segments[i], token)
    ensures SubstituteAll(segments, token, value)[i] == segments[i]
  {
  }

  /**
   * Page 1 lives in the directory made of the tag-filled segments before
   * the first one holding `:num`, without a trailing file segment: exactly
   * `f[..k]`, or `f[..k - 1]` when the segment before the cut names a file.
   * So it is a prefix of the filled segments, none of its segments holds
   * `:num`, and the first segment it leaves out holds `:num` or is a file
   * segment that was last or followed by one holding `:num`.
   */
  lemma PageOneDir(t: TagPath)
    ensures var d := t.DirSegments(1); var f := t.Filled(); var k := NumCut(f);
      && d == (if k > 0 && IsFileName(f[k - 1]) then f[..k - 1] else f[..k])
      && |d| <= |f| && d == f[..|d|]
      && (forall i :: 0 <= i < |d| ==> !Contains(d[i], NumToken))
      && (|d| < |f| ==>
            Contains(f[|d|], NumToken)
            || (IsFileName(f[|d|]) && (|d| + 1 == |f| || Contains(f[|d| + 1], NumToken))))
  {
    var f := t.Filled();
    var c := NumCut(f);
    var kept := RemovePaginatedSegments(f);
    assert kept == f[..c];
    var d := t.DirSegments(1);
    assert d == DropFileSegment(kept);
    if c > 0 && IsFileName(f[c - 1]) {
      assert kept[|kept| - 1] == f[c - 1];
      assert d == f[..c - 1];
    } else {
      assert d == f[..c];
    }
    CutShape(f, d);
  }

  /** What the page-1 cut of `f` looks like: a prefix free of `:num`, stopped by `:num` or a file segment before it. */
  lemma CutShape(f: seq<string>, d: seq<string>)
    requires var k := NumCut(f); d == (if k > 0 && IsFileName(f[k - 1]) then f[..k - 1] else f[..k])
    ensures |d| <= |f| && d == f[..|d|]
    ensures forall i :: 0 <= i < |d| ==> !Contains(d[i], NumToken)
    ensures |d| < |f| ==>
      Contains(f[|d|], NumToken)
      || (IsFileName(f[|d|]) && (|d| + 1 == |f| || Contains(f[|d| + 1], NumToken)))
  {
  }

  /**
   * Any other page lives in the directory made of all the tag-filled
   * segments with the page number substituted for `:num`, without a
   * trailing file segment.
   */
  lemma OtherPageDir(t: TagPath, n: int)
    requires n != 1
    ensures var d := t.DirSegments(n); var g := SubstituteAll(t.Filled(), NumToken, IntToString(n));
      && (|d| == |g| || (|d| + 1 == |g| && IsFileName(g[|d|])))
      && (|d| == |g| ==> |g| == 0 || !IsFileName(g[|g| - 1]))
      && forall i :: 0 <= i < |d| ==> d[i] == Substitute(t.Filled()[i], NumToken, IntToString(n))
  {
  }

  /** The directory of page 1 is, segment by segment, a prefix of the directory of every other page. */
  lemma PageOneDirPrefix(t: TagPath, n: int)
    requires n != 1
    ensures var d1 := t.DirSegments(1); var dn := t.DirSegments(n);
      |d1| <= |dn| && d1 == dn[..|d1|]
  {
    if FirstWith(t.Filled(), NumToken).None? {
      DirsWithoutNum(t, n);
      assert t.DirSegments(1)[..|t.DirSegments(1)|] == t.DirSegments(1);
    } else {
      DirsWithNum(t, n);
    }
  }

  /** Without `:num` in any segment, every page lives in the same directory. */
  lemma DirsWithoutNum(t: TagPath, n: int)
    requires n != 1 && FirstWith(t.Filled(), NumToken).None?
    ensures t.DirSegments(1) == t.DirSegments(n)
  {
    var f := t.Filled();
    SubstituteAbsent(f, NumToken, IntToString(n));
    assert RemovePaginatedSegments(f) == f;
  }

  /** Substituting a token no segment holds changes nothing. */
  lemma SubstituteAbsent(segments: seq<string>, token: string, value: string)
    requires |token| > 0 && forall i :: 0 <= i < |segments| ==> !Contains(segments[i], token)
    ensures SubstituteAll(segments, token, value) == segments
  {
  }

  /** With `:num` in some segment, page 1's directory stops before it and agrees with page `n`'s up to there. */
  lemma DirsWithNum(t: TagPath, n: int)
    requires n != 1 && FirstWith(t.Filled(), NumToken).Some?
    ensures var d1 := t.DirSegments(1); var dn := t.DirSegments(n);
      |d1| <= |dn| && d1 == dn[..|d1|]
  {
    var f := t.Filled();
    var g := SubstituteAll(f, NumToken, IntToString(n));
    var k := FirstWith(f, NumToken).value;
    var d1 := t.DirSegments(1);
    var dn := t.DirSegments(n);
    PageOneDir(t);
    OtherPageDir(t, n);
    assert |d1| <= k < |f| == |g|;
    forall i | 0 <= i < |d1|
      ensures d1[i] == dn[i]
    {
      assert !Contains(f[i], NumToken);
    }
    PrefixByElements(d1, dn);
  }

  /** Page 1 is named `index.html`, unless the template is a per-tag file, which then names it with the tag filled in. */
  lemma PageOneFilename(t: TagPath)
    ensures t.FilenameFor(1) ==
              if t.explicitFile && |t.segments| > 0 then Substitute(t.segments[|t.segments| - 1], FieldToken, t.tag)
              else if t.explicitFile then ""
              else IndexFile
  {
    if t.explicitFile && |t.segments| > 0 {
      var named := SubstituteAll([t.segments[|t.segments| - 1]], FieldToken, t.tag);
      assert |named| == 1;
    }
  }

  /** `File.join` of the directory segments is their plain '/'-joining when every segment is a non-empty slash-free string. */
  lemma DirJoins(t: TagPath, n: int)
    requires AllSegments(t.DirSegments(n))
    ensures t.DirFor(n) == JoinWith(t.DirSegments(n), "/")
  {
    FileJoinOfSegments(t.DirSegments(n));
  }

  /** Substituting a non-empty slash-free value keeps every segment non-empty and slash-free. */
  lemma SubstituteSegments(segments: seq<string>, token: string, value: string)
    requires |token| > 0 && AllSegments(segments) && IsSegment(value)
    ensures AllSegments(SubstituteAll(segments, token, value))
  {
    forall i | 0 <= i < |segments|
      ensures IsSegment(SubstituteAll(segments, token, value)[i])
    {
      ReplaceAllSegment(segments[i], token, value);
    }
  }

  /**
   * With a non-empty slash-free tag (a non-empty slug, say), every directory
   * is its segments joined by '/'. The URL of an index page is that
   * directory between slashes; any other page's URL is the directory's
   * segments and the file name, joined by '/' after a leading '/'.
   */
  lemma CleanUrl(t: TagPath, n: int)
    requires AllSegments(t.segments) && IsSegment(t.tag)
    ensures AllSegments(t.DirSegments(n))
    ensures t.DirFor(n) == JoinWith(t.DirSegments(n), "/")
    ensures t.FilenameFor(n) == IndexFile ==>
              t.UrlFor(Some(n)) == Some(if t.DirSegments(n) == [] then "/" else "/" + JoinWith(t.DirSegments(n), "/") + "/")
    ensures t.FilenameFor(n) != IndexFile ==>
              t.UrlFor(Some(n)) == Some("/" + JoinWith(t.DirSegments(n) + [t.FilenameFor(n)], "/"))
  {
    SubstituteSegments(t.segments, FieldToken, t.tag);
    var f := t.Filled();
    if n == 1 {
      var kept := RemovePaginatedSegments(f);
      assert AllSegments(kept);
    } else {
      SubstituteSegments(f, NumToken, IntToString(n));
    }
    var d := t.DirSegments(n);
    assert AllSegments(d);
    FileJoinOfSegments(d);
    if t.FilenameFor(n) != IndexFile {
      NamedUrl(t, n);
    }
  }

  /** A page that is not an index file is reached at its directory's segments and its file name, joined by '/'. */
  lemma NamedUrl(t: TagPath, n: int)
    requires AllSegments(t.DirSegments(n)) && t.FilenameFor(n) != IndexFile
    ensures t.UrlFor(Some(n)) == Some("/" + JoinWith(t.DirSegments(n) + [t.FilenameFor(n)], "/"))
  {
    var dir := t.DirFor(n);
    var name := t.FilenameFor(n);
    assert t.UrlFor(Some(n)) == Some(if dir == "" then "/" + name else "/" + dir + "/" + name);
    SlashJoin(t.DirSegments(n), name);
  }

  /** `File.join` of segments, then a '/' and a name, is the '/'-join of the segments and the name. */
  lemma SlashJoin(d: seq<string>, name: string)
    requires AllSegments(d)
    ensures (if FileJoin(d) == "" then "/" + name else "/" + FileJoin(d) + "/" + name) == "/" + JoinWith(d + [name], "/")
  {
    FileJoinOfSegments(d);
    if d == [] {
      assert d + [name] == [name];
      JoinOne(name, "/");
    } else {
      JoinSnoc(d, name, "/");
    }
  }
}
