/**
 * `CollectionConfig`: checks one entry of the `collection_pages` setting and
 * normalises it into the settings the generator works with.
 */
module CollectionConfigs {
  import opened Results
  import opened Strings

  /** A value read from the site configuration. */
  datatype Value =
    | Text(s: string)
    | Number(n: int)
    | Flag(b: bool)
    | Other(shown: string)  // any other YAML value, by its `inspect` text

  /** Ruby truthiness: only nil (an absent key) and `false` are false. */
  predicate Truthy(v: Option<Value>) {
    v.Some? && v.value != Flag(false)
  }

  /** `to_s` of a present value. */
  function ValueText(v: Value): string {
    match v
    case Text(s) => s
    case Number(n) => IntToString(n)
    case Flag(b) => if b then "true" else "false"
    case Other(shown) => shown
  }

  /** `to_s` of a possibly absent value: nil gives "". */
  function OptionText(v: Option<Value>): string {
    match v
    case None => ""
    case Some(x) => ValueText(x)
  }

  /** How `String#inspect` writes the first character of `s`, given the one after it. */
  function EscapeFirst(s: string): string
    requires |s| > 0
  {
    var c := s[0];
    if c == '"' then "\\\""
    else if c == '\\' then "\\\\"
    else if c == '\n' then "\\n"
    else if c == '\t' then "\\t"
    else if c == '\r' then "\\r"
    else if c == '\U{000C}' then "\\f"
    else if c == '\U{000B}' then "\\v"
    else if c == '\U{0008}' then "\\b"
    else if c == '\U{0007}' then "\\a"
    else if c == '\U{001B}' then "\\e"
    else if c == '#' && |s| > 1 && (s[1] == '{' || s[1] == '$' || s[1] == '@') then "\\#"
    else [c]
  }

  /** The body of `String#inspect`: every character, escaped where Ruby escapes it. */
  function Escaped(s: string): string
    decreases |s|
  {
    if |s| == 0 then "" else EscapeFirst(s) + Escaped(s[1..])
  }

  /** A character `String#inspect` escapes wherever it stands. */
  predicate Escapable(c: char) {
    c == '"' || c == '\\' || c == '#' || c as int < 32
  }

  /** A string with no character `inspect` could escape is written as it is. */
  lemma {:induction false} EscapedPlain(s: string)
    requires forall i :: 0 <= i < |s| ==> !Escapable(s[i])
    ensures Escaped(s) == s
    decreases |s|
  {
    if |s| > 0 {
      EscapedPlain(s[1..]);
    }
  }

  /** A quote or a backslash inside the string is written with a backslash before it. */
  lemma EscapedExample()
    ensures Escaped("a\"b") == "a\\\"b"
    ensures Escaped("c:\\d") == "c:\\\\d"
  {
    assert "a\"b"[1..] == "\"b" && "\"b"[1..] == "b";
    assert "c:\\d"[1..] == ":\\d" && ":\\d"[1..] == "\\d" && "\\d"[1..] == "d";
  }

  /** `inspect` of a possibly absent value. */
  function Inspect(v: Option<Value>): string {
    match v
    case None => "nil"
    case Some(Text(s)) => "\"" + Escaped(s) + "\""
    case Some(x) => ValueText(x)
  }

  /** One entry of `collection_pages`: a mapping, or some other YAML value. */
  datatype Entry =
    | Mapping(settings: map<string, Value>)
    | NotMapping(shown: string)

  /** `config[key]`: the value stored under `key`, or nil. */
  function Lookup(settings: map<string, Value>, key: string): Option<Value> {
    if key in settings then Some(settings[key]) else None
  }

  /** The `ArgumentError`s an entry can raise. */
  datatype ConfigError =
    | NotAMapping(shown: string)
    | InvalidPaginate(value: Option<Value>, collection: string, field: string)
    | MissingKeys(keys: seq<string>)
  {
    /** The error's message, as raised. */
    function Message(): string {
      match this
      case NotAMapping(shown) => "Invalid collection_pages config entry. " + shown + "."
      case InvalidPaginate(value, collection, field) =>
        "Invalid paginate value " + Inspect(value) + " for collection '" + collection + "' field '" + field
        + "'. Expected a numeric value."
      case MissingKeys(keys) => "Invalid collection_pages config entry. Missing: " + JoinWith(keys, ", ") + "."
    }
  }

  /** The normalised settings of one entry. */
  datatype CollectionConfig = CollectionConfig(
    collectionName: string,
    tagField: string,
    tagBasePath: string,
    tagLayout: string,
    perPage: Option<int>)

  /** Position of the last `c` in `s`, if any. */
  function LastIndexOf(s: string, c: char): (k: Option<nat>)
    ensures k.Some? ==> k.value < |s| && s[k.value] == c && c !in s[k.value + 1..]
    ensures k.None? ==> c !in s
    decreases |s|
  {
    if |s| == 0 then None
    else if s[|s| - 1] == c then Some(|s| - 1)
    else
      var k := LastIndexOf(s[..|s| - 1], c);
      assert s == s[..|s| - 1] + [s[|s| - 1]];
      if k.Some? then
        assert s[k.value + 1..] == s[..|s| - 1][k.value + 1..] + [s[|s| - 1]];
        k
      else k
  }

  /** `sub(/\.[^.]+\z/, '')`: drops a final extension, a '.' followed by at least one character up to the end with no further '.'. */
  function StripExtension(s: string): string {
    match LastIndexOf(s, '.')
    case Some(k) => if k + 1 < |s| then s[..k] else s
    case None => s
  }

  const LayoutsDir: string := "_layouts/"

  /** `normalize_layout`: the layout name without its extension and without a leading `_layouts/`. */
  function NormalizeLayout(layout: string): string {
    var bare := StripExtension(layout);
    if StartsWith(bare, LayoutsDir) then bare[|LayoutsDir|..] else bare
  }

  const DefaultLayout: string := "collection_layout"

  /** `normalize_paginate_value`: nil stays nil, a positive integer is kept, any other integer turns pagination off, the rest is an error. */
  function NormalizePaginate(value: Option<Value>, collection: string, field: string): (r: Result<Option<int>, ConfigError>)
    ensures r.Success? && r.value.Some? ==> r.value.value > 0
    ensures r.Failure? ==> r.error == InvalidPaginate(value, collection, field)
  {
    var parsed: Option<int> :=
      match value
      case None => None
      case Some(Number(n)) => Some(n)
      case Some(Text(s)) => ParseInteger(s)
      case Some(_) => None;
    if value.None? then Success(None)
    else if parsed.None? then Failure(InvalidPaginate(value, collection, field))
    else if parsed.value > 0 then Success(Some(parsed.value))
    else Success(None)
  }

  /** `validate_config`'s list of missing keys, in the order it appends them. */
  function MissingKeyList(collection: Option<Value>, field: Option<Value>): seq<string> {
    (if Truthy(collection) then [] else ["collection"]) + (if Truthy(field) then [] else ["field"])
  }

  /** `CollectionConfig.new(config)`. */
  function NewCollectionConfig(entry: Entry): (r: Result<CollectionConfig, ConfigError>)
    ensures r.Success? ==> r.value.perPage.None? || r.value.perPage.value > 0
  {
    match entry
    case NotMapping(shown) => Failure(NotAMapping(shown))
    case Mapping(settings) =>
      var collection := Lookup(settings, "collection");
      var field := Lookup(settings, "field");
      var path := Lookup(settings, "path");
      var layout := Lookup(settings, "layout");
      var perPage :- NormalizePaginate(Lookup(settings, "paginate"), OptionText(collection), OptionText(field));
      var missing := MissingKeyList(collection, field);
      if missing != [] then Failure(MissingKeys(missing))
      else
        Success(CollectionConfig(
          OptionText(collection),
          OptionText(field),
          OptionText(if Truthy(path) then path else collection),
          NormalizeLayout(if Truthy(layout) then ValueText(layout.value) else DefaultLayout),
          perPage))
  }

  /** A value that is not a mapping is refused. */
  lemma NotMappingRefused(shown: string)
    ensures NewCollectionConfig(NotMapping(shown)) == Failure(NotAMapping(shown))
  {
  }

  /**
   * With a valid `paginate`, an entry is refused exactly when `collection`
   * or `field` is missing, and the error names exactly the missing keys,
   * `collection` first.
   */
  lemma MissingKeysNamed(settings: map<string, Value>)
    requires NormalizePaginate(Lookup(settings, "paginate"), OptionText(Lookup(settings, "collection")), OptionText(Lookup(settings, "field"))).Success?
    ensures var r := NewCollectionConfig(Mapping(settings));
      && (r.Failure? <==> !Truthy(Lookup(settings, "collection")) || !Truthy(Lookup(settings, "field")))
      && (r.Failure? ==> r.error.MissingKeys?
                         && ("collection" in r.error.keys <==> !Truthy(Lookup(settings, "collection")))
                         && ("field" in r.error.keys <==> !Truthy(Lookup(settings, "field")))
                         && |r.error.keys| <= 2
                         && (|r.error.keys| == 2 ==> r.error.keys == ["collection", "field"]))
  {
    var keys := MissingKeyList(Lookup(settings, "collection"), Lookup(settings, "field"));
    assert "collection" != "field";
  }

  /** An invalid `paginate` is reported before missing keys are. */
  lemma PaginateCheckedFirst(settings: map<string, Value>)
    requires NormalizePaginate(Lookup(settings, "paginate"), OptionText(Lookup(settings, "collection")), OptionText(Lookup(settings, "field"))).Failure?
    ensures NewCollectionConfig(Mapping(settings)).Failure?
    ensures NewCollectionConfig(Mapping(settings)).error.InvalidPaginate?
  {
  }

  /** An accepted entry without `path` lays its pages out under the collection name. */
  lemma PathDefaultsToCollection(settings: map<string, Value>)
    requires NewCollectionConfig(Mapping(settings)).Success? && "path" !in settings
    ensures NewCollectionConfig(Mapping(settings)).value.tagBasePath == NewCollectionConfig(Mapping(settings)).value.collectionName
  {
  }

  /** An accepted entry without `layout` uses `collection_layout`. */
  lemma LayoutDefault(settings: map<string, Value>)
    requires NewCollectionConfig(Mapping(settings)).Success? && "layout" !in settings
    ensures NewCollectionConfig(Mapping(settings)).value.tagLayout == DefaultLayout
  {
    DefaultLayoutKept();
  }

  /** A layout name with no '.' and not under `_layouts/` is kept as it is. */
  lemma PlainLayoutKept(name: string)
    requires '.' !in name && !StartsWith(name, LayoutsDir)
    ensures NormalizeLayout(name) == name
  {
  }

  /** `collection_layout` is already normalised. */
  lemma DefaultLayoutKept()
    ensures NormalizeLayout(DefaultLayout) == DefaultLayout
  {
    assert DefaultLayout[0] != LayoutsDir[0];
    PlainLayoutKept(DefaultLayout);
  }

  /** Stripping an extension leaves a prefix, and removes exactly a '.' followed by a non-empty dot-free tail. */
  lemma StripExtensionShape(s: string)
    ensures var r := StripExtension(s);
      && |r| <= |s| && r == s[..|r|]
      && (r != s ==> s[|r|] == '.' && |r| + 1 < |s| && '.' !in s[|r| + 1..])
      && (r == s ==> '.' !in s || s[|s| - 1] == '.')
  {
  }

  /** Normalising a layout file name under `_layouts/` gives back the layout's name, subdirectories included. */
  lemma LayoutRoundTrip(name: string, ext: string)
    requires |ext| > 0 && '.' !in ext && !StartsWith(name, LayoutsDir)
    ensures NormalizeLayout(LayoutsDir + name + "." + ext) == name
    ensures NormalizeLayout(name + "." + ext) == name
  {
    var full := LayoutsDir + name + "." + ext;
    ExtensionFound(LayoutsDir + name, ext);
    assert StripExtension(full) == LayoutsDir + name;
    assert (LayoutsDir + name)[..|LayoutsDir|] == LayoutsDir;
    assert (LayoutsDir + name)[|LayoutsDir|..] == name;
    ExtensionFound(name, ext);
  }

  /** The last '.' of `base + "." + ext` with a dot-free `ext` is the one before `ext`. */
  lemma ExtensionFound(base: string, ext: string)
    requires |ext| > 0 && '.' !in ext
    ensures StripExtension(base + "." + ext) == base
  {
    var s := base + "." + ext;
    assert s[|base|] == '.' && s[|base| + 1..] == ext && s[..|base|] == base;
  }

  /** `paginate` examples: absent, a number, a numeric string, zero, a negative number and a word. */
  lemma PaginateExamples(c: string, f: string)
    ensures NormalizePaginate(None, c, f) == Success(None)
    ensures NormalizePaginate(Some(Number(5)), c, f) == Success(Some(5))
    ensures NormalizePaginate(Some(Text("5")), c, f) == Success(Some(5))
    ensures NormalizePaginate(Some(Number(0)), c, f) == Success(None)
    ensures NormalizePaginate(Some(Number(-3)), c, f) == Success(None)
    ensures NormalizePaginate(Some(Text("abc")), c, f).Failure?
  {
    assert TrimBlanks("5") == "5" && NumeralValue("5", 10) == 5;
    assert TrimBlanks("abc") == "abc" && DigitValue('a') == 10;
  }

  /**
   * `normalize_paginate_value` on every input: nil stays nil; an integer, or
   * a string `Integer()` reads as one, is kept when positive and turns
   * pagination off otherwise; a string `Integer()` refuses, a boolean or any
   * other value raises the invalid-paginate error.
   */
  lemma PaginateValues(n: int, s: string, b: bool, shown: string, c: string, f: string)
    ensures NormalizePaginate(None, c, f) == Success(None)
    ensures NormalizePaginate(Some(Number(n)), c, f) == Success(if n > 0 then Some(n) else None)
    ensures NormalizePaginate(Some(Text(IntToString(n))), c, f) == Success(if n > 0 then Some(n) else None)
    ensures ParseInteger(s).Some? ==>
              var v := ParseInteger(s).value;
              NormalizePaginate(Some(Text(s)), c, f) == Success(if v > 0 then Some(v) else None)
    ensures ParseInteger(s).None? ==> NormalizePaginate(Some(Text(s)), c, f) == Failure(InvalidPaginate(Some(Text(s)), c, f))
    ensures NormalizePaginate(Some(Flag(b)), c, f) == Failure(InvalidPaginate(Some(Flag(b)), c, f))
    ensures NormalizePaginate(Some(Other(shown)), c, f) == Failure(InvalidPaginate(Some(Other(shown)), c, f))
  {
    IntToStringRoundTrip(n);
  }
}
