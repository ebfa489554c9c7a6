/**
 * `PathTemplate`: compiles the `path` setting of a collection entry into the
 * template that lays out every tag page. The raw path is trimmed, defaulted
 * to the collection name, completed with the `:field`, `page:num` and
 * `index.html` pieces it lacks, and validated; every violation found by the
 * validation is reported in one error.
 */
module PathTemplates {
  import opened Results
  import opened Strings
  import opened Seqs

  const IndexFile: string := "index.html"
  const FieldToken: string := ":field"
  const NumToken: string := ":num"
  /** The segment appended when a paginated template has no `:num`. */
  const PageSegment: string := "page:num"

  /** A path that names an HTML file rather than a directory. */
  predicate IsFileName(s: string) {
    EndsWith(s, ".html") || EndsWith(s, ".htm")
  }

  /**
   * `sub(/^\/+/, '')`. `^` anchors at the start of any line, so this removes
   * the first run of slashes that begins a line (normally the leading one).
   */
  function DropLineStartSlashes(s: string, atLineStart: bool): string
    decreases |s|
  {
    if |s| == 0 then ""
    else if atLineStart && s[0] == '/' then TrimLeading(s, '/')
    else [s[0]] + DropLineStartSlashes(s[1..], s[0] == '\n')
  }

  /** `sanitize_path`: strip blanks, then drop the leading and the trailing slashes. */
  function Sanitize(raw: string): string {
    TrimTrailing(DropLineStartSlashes(Strip(raw), true), '/')
  }

  /** What can be wrong with a template, one per message `validate_template` collects. */
  datatype Problem =
    | FieldCount      // not exactly one `:field`
    | NumCount        // paginated, and not exactly one `:num`
    | NumBeforeField  // the first `:num` precedes the first `:field`
    | SharedSegment   // one `/`-segment holds both placeholders

  /** The message `validate_template` adds for a problem of `path`. */
  function ProblemText(path: string, problem: Problem): (text: string)
    ensures |text| > 0
  {
    match problem
    case FieldCount => "Path template '" + path + "' must include exactly one ':field' placeholder. "
    case NumCount => "Path template '" + path + "' must include exactly one ':num' placeholder. "
    case NumBeforeField => "In path template '" + path + "', ':field' must come before ':num'. "
    case SharedSegment => "In path template '" + path + "', ':field' and ':num' cannot be in the same file segment. "
  }

  /** The `ArgumentError`s compiling a template can raise. */
  datatype TemplateError =
    | MissingField(path: string)
    | MissingNum(path: string)
    | Invalid(path: string, problems: seq<Problem>)
  {
    /** The error's message, as raised. */
    function Message(): string {
      match this
      case MissingField(path) => "Path template '" + path + "' must include a ':field' placeholder."
      case MissingNum(path) => "Path template '" + path + "' must include a ':num' placeholder."
      case Invalid(path, problems) => Render(path, problems)
    }
  }

  /** The messages of `problems` concatenated in order. */
  function Render(path: string, problems: seq<Problem>): string
    decreases |problems|
  {
    if |problems| == 0 then "" else ProblemText(path, problems[0]) + Render(path, problems[1..])
  }

  /** `add_field_placeholder`. */
  function AddFieldPlaceholder(path: string): Result<string, TemplateError> {
    if Contains(path, FieldToken) then Success(path)
    else if IsFileName(path) then Failure(MissingField(path))
    else Success(path + "/" + FieldToken)
  }

  /** `add_num_placeholder`. */
  function AddNumPlaceholder(path: string): Result<string, TemplateError> {
    if Contains(path, NumToken) then Success(path)
    else if IsFileName(path) then Failure(MissingNum(path))
    else Success(path + "/" + PageSegment)
  }

  /** `add_index`: a path that does not already name an HTML file gets `/index.html`. */
  function AddIndex(path: string): string {
    if IsFileName(path) then path else path + "/" + IndexFile
  }

  /** Both placeholders occur in `segment`. */
  predicate HoldsBoth(segment: string) {
    Contains(segment, FieldToken) && Contains(segment, NumToken)
  }

  /** The problems with the placeholder counts and their order, in the order `validate_template` finds them. */
  function HeadProblems(path: string, requireNum: bool): seq<Problem> {
    var fieldCount := Count(path, FieldToken);
    var numCount := Count(path, NumToken);
    (if fieldCount != 1 then [FieldCount] else [])
    + (if requireNum && numCount != 1 then [NumCount] else [])
    + (if numCount > 0 && fieldCount > 0 then
         BothFound(path);
         if IndexOf(path, NumToken).value < IndexOf(path, FieldToken).value then [NumBeforeField] else []
       else [])
  }

  /** Appends to `found`, segment by segment in order, a problem for each segment that holds both placeholders. */
  function SegmentProblems(found: seq<Problem>, segments: seq<string>): seq<Problem>
    decreases |segments|
  {
    if |segments| == 0 then found
    else if HoldsBoth(segments[0]) then SegmentProblems(found + [SharedSegment], segments[1..])
    else SegmentProblems(found, segments[1..])
  }

  /** Every problem `validate_template` finds, in order; it raises exactly when there is one. */
  function ValidationProblems(path: string, requireNum: bool): seq<Problem> {
    SegmentProblems(HeadProblems(path, requireNum), Split(path))
  }

  /** The first `:field` occurs strictly before the first `:num`. */
  predicate FieldBeforeNum(path: string) {
    && IndexOf(path, FieldToken).Some?
    && IndexOf(path, NumToken).Some?
    && IndexOf(path, FieldToken).value < IndexOf(path, NumToken).value
  }

  /** What a valid template looks like. */
  predicate WellFormed(path: string, requireNum: bool) {
    && Count(path, FieldToken) == 1
    && (requireNum ==> Count(path, NumToken) == 1)
    && (Contains(path, FieldToken) && Contains(path, NumToken) ==> FieldBeforeNum(path))
    && NoSegmentHoldsBoth(path)
  }

  /** No `/`-segment of `path` holds both placeholders. */
  predicate NoSegmentHoldsBoth(path: string) {
    forall seg :: seg in Split(path) ==> !HoldsBoth(seg)
  }

  /** `validate_template`: the problems it collects, none exactly when the template is well formed. */
  method ValidateTemplate(path: string, requireNum: bool) returns (problems: seq<Problem>)
    ensures problems == ValidationProblems(path, requireNum)
    ensures problems == [] <==> WellFormed(path, requireNum)
  {
    var fieldCount := Count(path, FieldToken);
    var numCount := Count(path, NumToken);
    problems := [];
    if fieldCount != 1 {
      problems := problems + [FieldCount];
    }
    if requireNum && numCount != 1 {
      problems := problems + [NumCount];
    }
    if numCount > 0 && fieldCount > 0 {
      BothFound(path);
      var fieldIdx := IndexOf(path, FieldToken).value;
      var numIdx := IndexOf(path, NumToken).value;
      if numIdx < fieldIdx {
        problems := problems + [NumBeforeField];
      }
    }
    assert problems == HeadProblems(path, requireNum);
    var segments := Split(path);
    var i := 0;
    while i < |segments|
      invariant 0 <= i <= |segments|
      invariant SegmentProblems(problems, segments[i..]) == ValidationProblems(path, requireNum)
    {
      var segment := segments[i];
      assert segments[i..][1..] == segments[i + 1..];
      if Contains(segment, FieldToken) && Contains(segment, NumToken) {
        problems := problems + [SharedSegment];
      }
      i := i + 1;
    }
    ValidationProblemsEmpty(path, requireNum);
  }

  /** A placeholder counted at least once has a first position. */
  lemma BothFound(path: string)
    requires Count(path, NumToken) > 0 && Count(path, FieldToken) > 0
    ensures IndexOf(path, FieldToken).Some? && IndexOf(path, NumToken).Some?
  {
    CountPositive(path, NumToken);
    CountPositive(path, FieldToken);
    IndexOfFirst(path, NumToken);
    IndexOfFirst(path, FieldToken);
  }

  /** The two placeholders can never start at the same position. */
  lemma TokensApart(path: string)
    requires IndexOf(path, FieldToken).Some? && IndexOf(path, NumToken).Some?
    ensures IndexOf(path, FieldToken).value != IndexOf(path, NumToken).value
  {
    IndexOfFirst(path, FieldToken);
    IndexOfFirst(path, NumToken);
    var f := IndexOf(path, FieldToken).value;
    var n := IndexOf(path, NumToken).value;
    assert path[f..f + |FieldToken|][1] == 'f';
    assert path[n..n + |NumToken|][1] == 'n';
  }

  /** Appending segment problems leaves none exactly when there were none and no segment holds both placeholders. */
  lemma {:induction false} SegmentProblemsEmpty(found: seq<Problem>, segments: seq<string>)
    ensures SegmentProblems(found, segments) == [] <==> found == [] && forall seg :: seg in segments ==> !HoldsBoth(seg)
    decreases |segments|
  {
    if |segments| > 0 {
      var rest := segments[1..];
      assert forall seg :: seg in segments <==> seg == segments[0] || seg in rest;
      if HoldsBoth(segments[0]) {
        SegmentProblemsEmpty(found + [SharedSegment], rest);
      } else {
        SegmentProblemsEmpty(found, rest);
      }
    }
  }

  /** Validation finds no problem exactly in well-formed templates. */
  lemma ValidationProblemsEmpty(path: string, requireNum: bool)
    ensures ValidationProblems(path, requireNum) == [] <==> WellFormed(path, requireNum)
  {
    CountPositive(path, FieldToken);
    CountPositive(path, NumToken);
    IndexOfFirst(path, FieldToken);
    IndexOfFirst(path, NumToken);
    SegmentProblemsEmpty(HeadProblems(path, requireNum), Split(path));
    if Contains(path, FieldToken) && Contains(path, NumToken) {
      TokensApart(path);
    }
  }

  /** The raised message is empty exactly when no problem was found, so `validate_template` raises exactly on a problem. */
  lemma {:induction false} RenderEmpty(path: string, problems: seq<Problem>)
    ensures Render(path, problems) == "" <==> problems == []
    decreases |problems|
  {
    if |problems| > 0 {
      RenderEmpty(path, problems[1..]);
    }
  }

  /** The path the template is built from: the sanitised raw path, or the collection name when that is empty. */
  function BasePath(raw: string, collectionName: string): string {
    var sanitized := Sanitize(raw);
    if sanitized == "" then collectionName else sanitized
  }

  /** `build_effective_template`, stated as a value: the compiled template or the error raised. */
  function EffectiveTemplate(raw: string, collectionName: string, requireNum: bool): Result<string, TemplateError> {
    var base := BasePath(raw, collectionName);
    var withField :- AddFieldPlaceholder(base);
    var withNum :- if requireNum then AddNumPlaceholder(withField) else Success(withField);
    var path := AddIndex(withNum);
    var problems := ValidationProblems(path, requireNum);
    if problems == [] then Success(path) else Failure(Invalid(path, problems))
  }

  /** `build_effective_template`. */
  method BuildEffectiveTemplate(raw: string, collectionName: string, requireNum: bool) returns (r: Result<string, TemplateError>)
    ensures r == EffectiveTemplate(raw, collectionName, requireNum)
    ensures r.Success? ==> WellFormed(r.value, requireNum) && IsFileName(r.value)
  {
    var sanitized := Sanitize(raw);
    if sanitized == "" {
      sanitized := collectionName;
    }
    var withField := AddFieldPlaceholder(sanitized);
    if withField.Failure? {
      return Failure(withField.error);
    }
    sanitized := withField.value;
    if requireNum {
      var withNum := AddNumPlaceholder(sanitized);
      if withNum.Failure? {
        return Failure(withNum.error);
      }
      sanitized := withNum.value;
    }
    sanitized := AddIndex(sanitized);
    var problems := ValidateTemplate(sanitized, requireNum);
    if problems != [] {
      return Failure(Invalid(sanitized, problems));
    }
    r := Success(sanitized);
    CompiledTemplateValid(raw, collectionName, requireNum);
  }

  /** A compiled template: the value of `@template` and what the `template` reader shows. */
  datatype PathTemplate = PathTemplate(tagField: string, collectionName: string, requireNum: bool, effective: string) {
    /** `template`: the effective template as a site-absolute path. */
    function Template(): string {
      "/" + effective
    }
  }

  /** `PathTemplate.new`: raises exactly when compiling the raw template does. */
  method NewPathTemplate(rawTemplate: string, tagField: string, collectionName: string, requireNum: bool)
    returns (r: Result<PathTemplate, TemplateError>)
    ensures r.Success? <==> EffectiveTemplate(rawTemplate, collectionName, requireNum).Success?
    ensures r.Success? ==>
              r.value == PathTemplate(tagField, collectionName, requireNum, EffectiveTemplate(rawTemplate, collectionName, requireNum).value)
    ensures r.Failure? ==> r.error == EffectiveTemplate(rawTemplate, collectionName, requireNum).error
  {
    var effective := BuildEffectiveTemplate(rawTemplate, collectionName, requireNum);
    if effective.Failure? {
      return Failure(effective.error);
    }
    r := Success(PathTemplate(tagField, collectionName, requireNum, effective.value));
  }

  lemma AddIndexIsFile(path: string)
    ensures IsFileName(AddIndex(path))
  {
    if !IsFileName(path) {
      var p := path + "/" + IndexFile;
      assert p[|p| - 5..] == ".html";
    }
  }

  /** A compiled template is well formed and names an HTML file. */
  lemma CompiledTemplateValid(raw: string, collectionName: string, requireNum: bool)
    ensures var r := EffectiveTemplate(raw, collectionName, requireNum);
      r.Success? ==> WellFormed(r.value, requireNum) && IsFileName(r.value)
  {
    var r := EffectiveTemplate(raw, collectionName, requireNum);
    if r.Success? {
      ValidationProblemsEmpty(r.value, requireNum);
      var withField := AddFieldPlaceholder(BasePath(raw, collectionName)).value;
      var withNum := if requireNum then AddNumPlaceholder(withField).value else withField;
      AddIndexIsFile(withNum);
    }
  }

  /** A placeholder, or nothing. */
  predicate IsPiece(tok: string) {
    tok == FieldToken || tok == NumToken || tok == ""
  }

  /** A placeholder, or nothing, that is not the placeholder `p` cannot hold `p`. */
  lemma OtherPiece(tok: string, p: string)
    requires p == FieldToken || p == NumToken
    requires IsPiece(tok) && tok != p
    ensures !StartsWith(tok, p) && (|tok| == 0 || p[0] !in tok[1..])
  {
    if |p| <= |tok| {
      assert tok[..|p|][1] != p[1];
    }
    if |tok| > 0 {
      assert ':' !in tok[1..];
    }
  }

  /** The placeholder `p` in a segment made of a colon-free prefix followed by a placeholder or nothing. */
  lemma PieceFacts(pre: string, tok: string, p: string)
    requires p == FieldToken || p == NumToken
    requires IsPiece(tok) && ':' !in pre
    ensures Contains(pre + tok, p) == (tok == p)
    ensures Count(pre + tok, p) == (if tok == p then 1 else 0)
    ensures IndexOf(pre + tok, p) == if tok == p then Some(|pre|) else None
  {
    if tok != p {
      OtherPiece(tok, p);
    }
    TokenSegment(pre, tok, p, tok == p);
  }

  /** Extending a path by '/' and such a segment adds one `p` when the segment ends in `p`. */
  lemma PieceCount(x: string, seg: string, pre: string, tok: string, p: string)
    requires p == FieldToken || p == NumToken
    requires IsPiece(tok) && ':' !in pre && seg == pre + tok
    ensures Count(x + "/" + seg, p) == Count(x, p) + (if tok == p then 1 else 0)
  {
    assert Count(seg, p) == (if tok == p then 1 else 0) by {
      PieceFacts(pre, tok, p);
    }
    CountAcrossSlash(x, seg, p);
  }

  /** Extending a path by '/' and such a segment moves the first `p` there only when `x` has none. */
  lemma PieceIndex(x: string, seg: string, pre: string, tok: string, p: string)
    requires p == FieldToken || p == NumToken
    requires IsPiece(tok) && ':' !in pre && seg == pre + tok
    ensures IndexOf(x + "/" + seg, p) ==
              if IndexOf(x, p).Some? then IndexOf(x, p)
              else if tok == p then Some(|x| + 1 + |pre|) else None
  {
    assert IndexOf(seg, p) == if tok == p then Some(|pre|) else None by {
      PieceFacts(pre, tok, p);
    }
    IndexAfterSlash(x, seg, p, tok == p, |pre|);
  }

  /** Extending a path by '/' and such a segment keeps every segment free of a second placeholder. */
  lemma PieceSegments(x: string, seg: string, pre: string, tok: string)
    requires IsPiece(tok) && ':' !in pre && '/' !in pre && seg == pre + tok && |seg| > 0
    requires NoSegmentHoldsBoth(x)
    ensures NoSegmentHoldsBoth(x + "/" + seg)
  {
    assert !HoldsBoth(seg) by {
      PieceFacts(pre, tok, FieldToken);
      PieceFacts(pre, tok, NumToken);
    }
    assert '/' !in seg;
    AppendSegment(x, seg);
  }

  /** Appending a segment that is not a file name, and is at least five characters long, leaves a path that is not a file name. */
  lemma NotFileAfter(x: string, seg: string)
    requires |seg| >= 5 && !IsFileName(seg)
    ensures !IsFileName(x + "/" + seg)
  {
    var p := x + "/" + seg;
    assert p[|p| - 5..] == seg[|seg| - 5..];
    assert p[|p| - 4..] == seg[|seg| - 4..];
  }

  /** An HTML file name ends in 'l' or 'm', never in a blank or a '/'. */
  lemma FileNameLast(s: string)
    requires IsFileName(s)
    ensures |s| > 0 && (s[|s| - 1] == 'l' || s[|s| - 1] == 'm')
  {
    if EndsWith(s, ".html") {
      assert s[|s| - 5..][4] == s[|s| - 1];
    } else {
      assert s[|s| - 4..][3] == s[|s| - 1];
    }
  }

  /** A path without `:field` has no segment holding both placeholders. */
  lemma PlainSegments(s: string)
    requires !Contains(s, FieldToken)
    ensures NoSegmentHoldsBoth(s)
  {
    forall seg | seg in Split(s)
      ensures !HoldsBoth(seg)
    {
      var k :| 0 <= k < |Split(s)| && Split(s)[k] == seg;
      if Contains(seg, FieldToken) {
        SplitContains(s, k, FieldToken);
      }
    }
  }

  /** Appending a segment that holds at most one placeholder keeps every segment so. */
  lemma AppendSegment(x: string, seg: string)
    requires NoSegmentHoldsBoth(x) && IsSegment(seg) && !HoldsBoth(seg)
    ensures NoSegmentHoldsBoth(x + "/" + seg)
  {
    SplitAcrossSlash(x, seg);
    SplitOfSegment(seg);
  }

  /** `base + "/:field"` for a base without placeholders. */
  lemma AppendFieldFacts(base: string, a: string)
    requires !Contains(base, FieldToken) && !Contains(base, NumToken)
    requires a == base + "/" + FieldToken
    ensures Count(a, FieldToken) == 1 && Count(a, NumToken) == 0
    ensures IndexOf(a, FieldToken) == Some(|base| + 1) && IndexOf(a, NumToken) == None
    ensures !IsFileName(a) && NoSegmentHoldsBoth(a)
  {
    var seg := FieldToken;
    assert Count(a, FieldToken) == 1 by {
      CountPositive(base, FieldToken);
      PieceCount(base, seg, "", FieldToken, FieldToken);
    }
    assert Count(a, NumToken) == 0 by {
      CountPositive(base, NumToken);
      PieceCount(base, seg, "", FieldToken, NumToken);
    }
    assert IndexOf(a, FieldToken) == Some(|base| + 1) by {
      IndexOfFirst(base, FieldToken);
      PieceIndex(base, seg, "", FieldToken, FieldToken);
    }
    assert IndexOf(a, NumToken) == None by {
      IndexOfFirst(base, NumToken);
      PieceIndex(base, seg, "", FieldToken, NumToken);
    }
    assert NoSegmentHoldsBoth(a) by {
      PlainSegments(base);
      PieceSegments(base, seg, "", FieldToken);
    }
    NotFileAfter(base, seg);
  }

  /** `page:num` is a prefix free of colons and slashes, followed by `:num`. */
  lemma PageSegmentPieces()
    ensures PageSegment == "page" + NumToken && ':' !in "page" && '/' !in "page"
  {
  }

  /** `a + "/page:num"` for a path with one `:field` and no `:num`. */
  lemma AppendPageFacts(a: string, w: string)
    requires Count(a, FieldToken) == 1 && Count(a, NumToken) == 0
    requires IndexOf(a, FieldToken).Some? && IndexOf(a, NumToken) == None && NoSegmentHoldsBoth(a)
    requires w == a + "/" + PageSegment
    ensures Count(w, FieldToken) == 1 && Count(w, NumToken) == 1
    ensures IndexOf(w, FieldToken) == IndexOf(a, FieldToken) && IndexOf(w, NumToken) == Some(|a| + 5)
    ensures !IsFileName(w) && NoSegmentHoldsBoth(w)
  {
    PageSegmentPieces();
    AppendPageCounts(a);
    AppendPageIndices(a);
    PieceSegments(a, PageSegment, "page", NumToken);
    NotFileAfter(a, PageSegment);
  }

  /** Appending `/page:num` adds one `:num` and no `:field`. */
  lemma {:induction false} AppendPageCounts(a: string)
    ensures Count(a + "/" + PageSegment, FieldToken) == Count(a, FieldToken)
    ensures Count(a + "/" + PageSegment, NumToken) == Count(a, NumToken) + 1
  {
    PageSegmentPieces();
    PieceCount(a, PageSegment, "page", NumToken, FieldToken);
    PieceCount(a, PageSegment, "page", NumToken, NumToken);
  }

  /** Appending `/page:num` keeps the first `:field` and, when `a` has no `:num`, puts the first one at `|a| + 5`. */
  lemma {:induction false} AppendPageIndices(a: string)
    ensures IndexOf(a + "/" + PageSegment, FieldToken) == IndexOf(a, FieldToken)
    ensures IndexOf(a, NumToken) == None ==> IndexOf(a + "/" + PageSegment, NumToken) == Some(|a| + 5)
  {
    PageSegmentPieces();
    PieceIndex(a, PageSegment, "page", NumToken, FieldToken);
    PieceIndex(a, PageSegment, "page", NumToken, NumToken);
  }

  /** `w + "/index.html"` keeps the placeholder counts and positions of `w`. */
  lemma AppendIndexFacts(w: string, path: string)
    requires NoSegmentHoldsBoth(w)
    requires path == w + "/" + IndexFile
    ensures Count(path, FieldToken) == Count(w, FieldToken) && Count(path, NumToken) == Count(w, NumToken)
    ensures IndexOf(path, FieldToken) == IndexOf(w, FieldToken) && IndexOf(path, NumToken) == IndexOf(w, NumToken)
    ensures IsFileName(path) && NoSegmentHoldsBoth(path)
  {
    var seg := IndexFile;
    assert Count(path, FieldToken) == Count(w, FieldToken) by {
      PieceCount(w, seg, IndexFile, "", FieldToken);
    }
    assert Count(path, NumToken) == Count(w, NumToken) by {
      PieceCount(w, seg, IndexFile, "", NumToken);
    }
    assert IndexOf(path, FieldToken) == IndexOf(w, FieldToken) by {
      PieceIndex(w, seg, IndexFile, "", FieldToken);
    }
    assert IndexOf(path, NumToken) == IndexOf(w, NumToken) by {
      PieceIndex(w, seg, IndexFile, "", NumToken);
    }
    assert NoSegmentHoldsBoth(path) by {
      PieceSegments(w, seg, IndexFile, "");
    }
    assert path[|path| - 5..] == ".html";
  }

  /** The template a placeholder-free base path is completed to. */
  function Completed(base: string, requireNum: bool): string {
    var withField := base + "/" + FieldToken;
    (if requireNum then withField + "/" + PageSegment else withField) + "/" + IndexFile
  }

  /** The completed template of a base path without placeholders is well formed. */
  lemma CompletedWellFormed(base: string, requireNum: bool, path: string)
    requires !Contains(base, FieldToken) && !Contains(base, NumToken)
    requires path == Completed(base, requireNum)
    ensures WellFormed(path, requireNum) && IsFileName(path)
  {
    var a := base + "/" + FieldToken;
    AppendFieldFacts(base, a);
    var w := if requireNum then a + "/" + PageSegment else a;
    if requireNum {
      AppendPageFacts(a, w);
    }
    assert path == w + "/" + IndexFile;
    AppendIndexFacts(w, path);
    CountPositive(path, FieldToken);
    CountPositive(path, NumToken);
  }

  /**
   * A base path (the sanitised raw path, or the collection name when that is
   * empty) without placeholders that does not name a file gets `/:field`,
   * then `/page:num` when pagination is required, then `/index.html`, and the
   * result is accepted.
   */
  lemma AppendsPlaceholders(raw: string, collectionName: string, requireNum: bool)
    requires var base := BasePath(raw, collectionName);
      !Contains(base, FieldToken) && !Contains(base, NumToken) && !IsFileName(base)
    ensures EffectiveTemplate(raw, collectionName, requireNum) == Success(Completed(BasePath(raw, collectionName), requireNum))
  {
    var base := BasePath(raw, collectionName);
    var a := base + "/" + FieldToken;
    assert AddFieldPlaceholder(base) == Success(a);
    var w := if requireNum then a + "/" + PageSegment else a;
    assert !Contains(a, NumToken) && !IsFileName(a) by {
      AppendFieldFacts(base, a);
      CountPositive(a, NumToken);
    }
    assert (if requireNum then AddNumPlaceholder(a) else Success(a)) == Success(w);
    assert !IsFileName(w) by {
      if requireNum {
        NotFileAfter(a, PageSegment);
      }
    }
    var path := Completed(base, requireNum);
    assert AddIndex(w) == path;
    assert ValidationProblems(path, requireNum) == [] by {
      CompletedWellFormed(base, requireNum, path);
      ValidationProblemsEmpty(path, requireNum);
    }
  }

  /** A file name without `:field` cannot be completed: the `:field` error is raised. */
  lemma FileNeedsField(raw: string, collectionName: string, requireNum: bool)
    requires IsFileName(BasePath(raw, collectionName)) && !Contains(BasePath(raw, collectionName), FieldToken)
    ensures EffectiveTemplate(raw, collectionName, requireNum)
              == Failure(MissingField(BasePath(raw, collectionName)))
  {
  }

  /** A paginated file name with `:field` but without `:num` cannot be completed: the `:num` error is raised. */
  lemma FileNeedsNum(raw: string, collectionName: string)
    requires var base := BasePath(raw, collectionName);
      IsFileName(base) && Contains(base, FieldToken) && !Contains(base, NumToken)
    ensures EffectiveTemplate(raw, collectionName, true)
              == Failure(MissingNum(BasePath(raw, collectionName)))
  {
  }

  /**
   * A base path that already names a file and holds every placeholder it
   * needs is taken as it is: accepted exactly when it is well formed.
   */
  lemma CompleteBaseKept(raw: string, collectionName: string, requireNum: bool)
    requires var base := BasePath(raw, collectionName);
      IsFileName(base) && Contains(base, FieldToken) && (requireNum ==> Contains(base, NumToken))
    ensures var base := BasePath(raw, collectionName);
      EffectiveTemplate(raw, collectionName, requireNum)
        == if WellFormed(base, requireNum) then Success(base) else Failure(Invalid(base, ValidationProblems(base, requireNum)))
  {
    ValidationProblemsEmpty(BasePath(raw, collectionName), requireNum);
  }

  /** A sanitised path has no slash at either end. */
  lemma SanitizeEdges(raw: string)
    ensures var s := Sanitize(raw); |s| > 0 ==> s[0] != '/' && s[|s| - 1] != '/'
  {
    var t := Strip(raw);
    var d := DropLineStartSlashes(t, true);
    var s := Sanitize(raw);
    if |s| > 0 {
      assert s[0] == d[0];
      if t[0] != '/' {
        assert d == [t[0]] + DropLineStartSlashes(t[1..], t[0] == '\n');
      }
    }
  }

  /** A raw path made only of blanks falls back to the collection name. */
  lemma BlankPathUsesCollection(raw: string, collectionName: string)
    requires forall i :: 0 <= i < |raw| ==> IsSpace(raw[i])
    ensures BasePath(raw, collectionName) == collectionName
  {
    StripLeftBlank(raw);
  }

  /** `p` is a prefix of `s`. */
  predicate Extends(s: string, p: string) {
    |p| <= |s| && s[..|p|] == p
  }

  lemma ExtendsTransitive(s: string, t: string, p: string)
    requires Extends(s, t) && Extends(t, p)
    ensures Extends(s, p)
  {
    assert s[..|p|] == s[..|t|][..|p|];
  }

  /** Each completion step keeps what it was given and may only append. */
  lemma StepsExtend(path: string)
    ensures AddFieldPlaceholder(path).Success? ==> Extends(AddFieldPlaceholder(path).value, path)
    ensures AddNumPlaceholder(path).Success? ==> Extends(AddNumPlaceholder(path).value, path)
    ensures Extends(AddIndex(path), path)
  {
    SlashAppendExtends(path, FieldToken);
    SlashAppendExtends(path, PageSegment);
    SlashAppendExtends(path, IndexFile);
  }

  /** `path + "/" + tail` starts with `path`. */
  lemma SlashAppendExtends(path: string, tail: string)
    ensures Extends(path + "/" + tail, path)
  {
    SeqAssoc(path, "/", tail);
    TakeAppend(path, "/" + tail, |path|);
    assert path[..|path|] == path;
  }

  /** Compiling only ever extends the base path. */
  lemma EffectiveExtendsBase(raw: string, collectionName: string, requireNum: bool)
    requires EffectiveTemplate(raw, collectionName, requireNum).Success?
    ensures Extends(EffectiveTemplate(raw, collectionName, requireNum).value, BasePath(raw, collectionName))
  {
    var base := BasePath(raw, collectionName);
    var withField := AddFieldPlaceholder(base).value;
    var withNum := if requireNum then AddNumPlaceholder(withField).value else withField;
    var path := AddIndex(withNum);
    assert Extends(withField, base) by {
      StepsExtend(base);
    }
    assert Extends(withNum, withField) by {
      StepsExtend(withField);
    }
    assert Extends(path, withNum) by {
      StepsExtend(withNum);
    }
    ExtendsTransitive(withNum, withField, base);
    ExtendsTransitive(path, withNum, base);
  }

  /** A path with no slash at either end and no blank at its end sanitises back to itself after a leading '/' is added. */
  lemma SanitizeSlashed(path: string)
    requires |path| > 0 && path[0] != '/' && path[|path| - 1] != '/' && !IsSpace(path[|path| - 1])
    ensures Sanitize("/" + path) == path
  {
    var t := "/" + path;
    assert Strip(t) == t by {
      StripUnchanged(t);
    }
    assert TrimLeading(t, '/') == path by {
      assert t[1..] == path;
    }
  }

  /** A well-formed file template without a leading slash, given back with one, compiles to itself. */
  lemma WellFormedRecompiles(path: string, collectionName: string, requireNum: bool)
    requires WellFormed(path, requireNum) && IsFileName(path) && path[0] != '/'
    ensures EffectiveTemplate("/" + path, collectionName, requireNum) == Success(path)
  {
    FileNameLast(path);
    SanitizeSlashed(path);
    CountPositive(path, FieldToken);
    CountPositive(path, NumToken);
    CompleteBaseKept("/" + path, collectionName, requireNum);
  }

  /**
   * The `template` reader round-trips: a template compiled from a non-blank
   * path, given back as a raw path (with its leading '/'), compiles to
   * itself, whatever the collection.
   */
  lemma TemplateRecompiles(raw: string, tagField: string, collectionName: string, otherName: string, requireNum: bool)
    requires EffectiveTemplate(raw, collectionName, requireNum).Success? && Sanitize(raw) != ""
    ensures var eff := EffectiveTemplate(raw, collectionName, requireNum).value;
      EffectiveTemplate(PathTemplate(tagField, collectionName, requireNum, eff).Template(), otherName, requireNum) == Success(eff)
  {
    var eff := EffectiveTemplate(raw, collectionName, requireNum).value;
    CompiledTemplateValid(raw, collectionName, requireNum);
    EffectiveExtendsBase(raw, collectionName, requireNum);
    SanitizeEdges(raw);
    assert eff[0] != '/' by {
      assert eff[0] == eff[..|Sanitize(raw)|][0];
    }
    WellFormedRecompiles(eff, otherName, requireNum);
  }

  /** A nil, empty or blank raw path compiles to the completed collection name. */
  lemma BlankPathDefault(raw: string, collectionName: string, requireNum: bool)
    requires forall i :: 0 <= i < |raw| ==> IsSpace(raw[i])
    requires !Contains(collectionName, FieldToken) && !Contains(collectionName, NumToken) && !IsFileName(collectionName)
    ensures EffectiveTemplate(raw, collectionName, requireNum) == Success(Completed(collectionName, requireNum))
  {
    BlankPathUsesCollection(raw, collectionName);
    AppendsPlaceholders(raw, collectionName, requireNum);
  }
}
