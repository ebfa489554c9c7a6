# jekyll-collection-pages, modelled in Dafny

jekyll-collection-pages is a Jekyll plugin that turns a collection of tagged
documents into listing pages. Each configured collection is handled in five
steps:

- **Check the configuration.** The `collection_pages` entry is checked and normalised (`CollectionConfig`).
- **Compile the path template.** A raw path becomes a template with exactly one `:field`, exactly one `:num` when pagination is on, and a final `.html` file (`PathTemplate`).
- **Group the documents.** They are grouped by every value of the tag field, and the tags are sorted.
- **Build the pages.** Each tag gets pages 1..N. A page's directory, file name and URL come from the template (`TagPath`). Its slice of documents and its neighbour numbers come from the pager (`TagPager`).
- **Record the result.** The pages are appended to the site. The template, the permalink, the per-tag labels and the per-tag documents are recorded under `site.data['collection_pages'][collection][field]` (`CollectionPager`).

The model follows the source file by file:

| module | models |
|---|---|
| `PathTemplates` | `path_template.rb`. `validate_template` is a method with a loop over the segments. It is proved equal to `ValidationProblems`, whose properties are lemmas. |
| `TagPaths` | `tag_path.rb`, as a datatype with functions. |
| `TagPathLayouts` | The two template shapes `tag_path.rb` is written for, worked out for every base directory and tag, and the concrete cases `/docs/category/:field/page:num/index.html` and `/docs/category/:field.html`. |
| `TagPagers` | `tag_pager.rb`, as a function that returns the pager record. |
| `CollectionConfigs` | `collection_config.rb`, as a function that returns `Result<CollectionConfig, ConfigError>`. |
| `TagGroups` | `sorted_tags`, as a method with the source's nested loops. The loops fill a map and a list of first-seen keys, which together model Ruby's insertion-ordered Hash. The method is proved equal to `GroupByTag`. |
| `CollectionPagers` | The rest of `collection_pager.rb`. The site is a class with `pages` and `collectionPages` fields. `create_pages` and `set_metadata` are methods that change it and are proved against `AllPages`, `LabelsMap`, `DocumentsMap` and `SetEntry`. |
| `Strings`, `Sorting`, `Slug`, `Seqs`, `Results` | The pieces of Ruby and Jekyll the core calls: `include?`, `index`, `scan(...).size`, `gsub`, `strip`, `split('/')` without empty pieces, `join`, `File.join`, `Integer#to_s`, `Integer()` on strings, `String#inspect`, `Array#sort` on strings and `Utils.slugify`. Also `Option` and `Result`. |

Errors the source raises are values of a datatype: `ConfigError` and
`TemplateError`. Each has a `Message()` that renders the text of the Ruby
`ArgumentError`. `validate_template` builds its message with `+=`. The
model keeps the list of problems it appends, and `Render` turns that list
into the concatenated message.

Where the code and its description differ, the model follows the code in
four places:

- **Leading slashes.** `sanitize_path` strips them with `^/+`. In Ruby `^` anchors at every line start, so the model removes the first run of slashes that starts a line (`DropLineStartSlashes`), not only a run at the start of the string.
- **Page numbers below 1.** `slice_posts` uses `Array#slice`, which counts a negative start from the end. These pages are modelled that way rather than excluded (`RubySlice`).
- **Missing keys.** `validate_config` runs only after `normalize_paginate_value`. So an invalid `paginate` is reported before missing keys are (`PaginateCheckedFirst`).
- **Permalink.** It is `url_for(1)` of the template with the literal `:field` as its unslugified tag (`PlaceholderPageOne`).

## Model

| member | source | states |
|---|---|---|
| PathTemplates.ValidateTemplate | lib/jekyll/collection_pages/path_template.rb:65-87 | Collects exactly the problems `validate_template` reports, in its order. Nothing is collected iff the path has exactly one `:field`, exactly one `:num` when it is required, `:field` before `:num`, and no segment holds both. |
| PathTemplates.ValidationProblemsEmpty | lib/jekyll/collection_pages/path_template.rb:66-84 | The problem list is empty iff the path is well formed, in both directions. |
| PathTemplates.RenderEmpty | lib/jekyll/collection_pages/path_template.rb:69-86 | The accumulated message is empty iff there is no problem, so the template is refused exactly when something is wrong. |
| PathTemplates.ProblemText | lib/jekyll/collection_pages/path_template.rb:70-82 | Every problem adds a non-empty sentence to the message. |
| PathTemplates.BothFound | lib/jekyll/collection_pages/path_template.rb:73-75 | When both placeholders are counted, both first positions exist, so the comparison on line 76 is defined. |
| PathTemplates.TokensApart | lib/jekyll/collection_pages/path_template.rb:74-76 | The first `:field` and the first `:num` never start at the same position, so the order between them is strict. |
| PathTemplates.BuildEffectiveTemplate | lib/jekyll/collection_pages/path_template.rb:23-33 | The method computes the compiled template or the raised error. A compiled template is well formed and ends in `.html` or `.htm`. |
| PathTemplates.NewPathTemplate | lib/jekyll/collection_pages/path_template.rb:10-15 | The constructor raises exactly when compiling fails, with the same error. Otherwise it keeps the field, the collection, the flag and the compiled template. |
| PathTemplates.CompiledTemplateValid | lib/jekyll/collection_pages/path_template.rb:23-33 | Every successfully compiled template is well formed and names an HTML file. |
| PathTemplates.AddIndexIsFile | lib/jekyll/collection_pages/path_template.rb:59-63 | After `add_index` the path always names an HTML file. |
| PathTemplates.AppendsPlaceholders | lib/jekyll/collection_pages/path_template.rb:26-28 | A base without placeholders that is not a file becomes `<base>/:field`, then `/page:num` only when pagination is required, then `/index.html`, in that order. |
| PathTemplates.CompletedWellFormed | lib/jekyll/collection_pages/path_template.rb:43-87 | The completed form of a placeholder-free base passes validation and names an HTML file. |
| PathTemplates.FileNeedsField | lib/jekyll/collection_pages/path_template.rb:46 | A `.html`/`.htm` base without `:field` is refused with the missing-field error, not modified. |
| PathTemplates.FileNeedsNum | lib/jekyll/collection_pages/path_template.rb:54 | A file base with `:field` but no `:num` is refused with the missing-num error when pagination is required. |
| PathTemplates.CompleteBaseKept | lib/jekyll/collection_pages/path_template.rb:44-87 | A file base that already holds the needed placeholders is kept verbatim. It is accepted iff it is well formed, and otherwise refused with its problems. |
| PathTemplates.SanitizeEdges | lib/jekyll/collection_pages/path_template.rb:35-37 | A sanitised path neither starts nor ends with '/'. |
| PathTemplates.SanitizeSlashed | lib/jekyll/collection_pages/path_template.rb:35-37 | Sanitising `/` followed by a clean path gives back that path. |
| PathTemplates.BlankPathUsesCollection | lib/jekyll/collection_pages/path_template.rb:24-25 | An empty or blank raw path falls back to the collection name. |
| PathTemplates.BlankPathDefault | lib/jekyll/collection_pages/path_template.rb:23-28 | A blank raw path compiles to `<collection>/:field/page:num/index.html`, or to `<collection>/:field/index.html` without pagination. |
| PathTemplates.StepsExtend | lib/jekyll/collection_pages/path_template.rb:43-63 | Each of the three steps only appends to the path. |
| PathTemplates.EffectiveExtendsBase | lib/jekyll/collection_pages/path_template.rb:23-33 | A compiled template starts with the sanitised base path. |
| PathTemplates.WellFormedRecompiles | lib/jekyll/collection_pages/path_template.rb:23-87 | A well-formed file path, given back with a leading '/', compiles to itself, whatever the collection. |
| PathTemplates.TemplateRecompiles | lib/jekyll/collection_pages/path_template.rb:17-19 | Compiling the output of `template` again, with the same flag, reproduces the compiled template. This holds when the raw input did not sanitise to empty. |
| PathTemplates.AppendFieldFacts | lib/jekyll/collection_pages/path_template.rb:48 | Appending `/:field` to a placeholder-free base gives one `:field`, no `:num`, `:field` right after the base, and no file name. |
| PathTemplates.AppendPageFacts | lib/jekyll/collection_pages/path_template.rb:56 | Appending `/page:num` adds exactly one `:num`, after the `:field`, in a segment of its own. |
| PathTemplates.AppendIndexFacts | lib/jekyll/collection_pages/path_template.rb:62 | Appending `/index.html` changes no placeholder count or position and makes the path a file name. |
| Strings.IndexOfFirst | lib/jekyll/collection_pages/path_template.rb:74-75 | `index` finds an occurrence iff there is one. It finds the first one. |
| Strings.CountPositive | lib/jekyll/collection_pages/path_template.rb:66-73 | The `scan` count is positive iff the placeholder occurs. |
| Strings.SplitAcrossSlash | lib/jekyll/collection_pages/path_template.rb:79 | Splitting `a/b` gives the pieces of `a` followed by the pieces of `b`. |
| Strings.SplitContains | lib/jekyll/collection_pages/path_template.rb:79-81 | A segment that holds a placeholder means the whole path holds it. |
| Strings.SplitSegments | lib/jekyll/collection_pages/tag_path.rb:11 | Every piece of `split('/').reject(&:empty?)` is non-empty and has no '/'. |
| Strings.SplitJoin | lib/jekyll/collection_pages/tag_path.rb:11 | Splitting the '/'-join of non-empty slash-free segments gives back the segments. |
| Strings.FileJoinOfSegments | lib/jekyll/collection_pages/tag_path.rb:21 | `File.join` of non-empty slash-free segments is their '/'-join. It is non-empty and does not end in '/' when there is a segment. |
| Strings.ReplaceAllSegment | lib/jekyll/collection_pages/tag_path.rb:52 | `gsub` with a slash-free value keeps a slash-free segment slash-free and non-empty. |
| Strings.ReplaceAllOnce | lib/jekyll/collection_pages/tag_path.rb:58 | `gsub` on a string with exactly one occurrence replaces just that occurrence. |
| Strings.StripEdges | lib/jekyll/collection_pages/path_template.rb:36 | `strip` leaves no blank at either end. |
| Strings.IntToStringRoundTrip | lib/jekyll/collection_pages/collection_config.rb:37 | `Integer(n.to_s)` is `n` for every integer. |
| Strings.NatToStringNumeral | lib/jekyll/collection_pages/tag_path.rb:58 | `n.to_s` is a decimal numeral whose value is `n`, with no leading zero. |
| Strings.DecimalValue | lib/jekyll/collection_pages/collection_config.rb:37 | A decimal numeral without a leading zero is read in base 10. |
| Strings.IntegerExamples | lib/jekyll/collection_pages/collection_config.rb:37 | `Integer()` reads `'010'` as 8, refuses `'08'` and the empty string, and skips surrounding whitespace. It reads `' 5 '` and `'5\n'` as 5, `'0x1A'` as 26 and `'-0b101'` as -5. |
| Sorting.Sort | lib/jekyll/collection_pages/collection_pager.rb:91 | The result is sorted and is a permutation of the input. |
| Sorting.Insert | lib/jekyll/collection_pages/collection_pager.rb:91 | Inserting into a sorted list keeps it sorted and adds exactly that element. |
| Sorting.SortDistinct | lib/jekyll/collection_pages/collection_pager.rb:91 | Distinct keys come out strictly ascending, with the same elements. |
| Sorting.BelowIrreflexive | lib/jekyll/collection_pages/collection_pager.rb:91 | No string sorts before itself. |
| Sorting.BelowAsymmetric | lib/jekyll/collection_pages/collection_pager.rb:91 | Two strings never sort before each other. |
| Sorting.BelowTransitive | lib/jekyll/collection_pages/collection_pager.rb:91 | String order is transitive. |
| Sorting.BelowTotal | lib/jekyll/collection_pages/collection_pager.rb:91 | Any two different strings are ordered one way or the other. |
| Slug.Slugify | lib/jekyll/collection_pages/tag_path.rb:10 | A slug holds only lower-case letters, digits, '-' and non-ASCII characters. It has no '/', no doubled '-' and no '-' at either end. |
| Slug.SlugifyIdempotent | lib/jekyll/collection_pages/tag_path.rb:10 | Slugging a slug changes nothing. |
| Slug.SlugExample | lib/jekyll/collection_pages/tag_path.rb:10 | `Alpha Tag` slugs to `alpha-tag`. |
| TagPaths.NewTagPath | lib/jekyll/collection_pages/tag_path.rb:8-13 | The template is kept. The tag is `Slugify(value)` by default and the value verbatim when slugging is off. The segments are the template's non-empty '/'-pieces, each slash-free. The path is an explicit per-tag file exactly when its last segment names an .html/.htm file holding `:field`. A slugged tag has no '/'. |
| TagPaths.TagOfValue | lib/jekyll/collection_pages/tag_path.rb:10 | "Alpha Tag" becomes the tag "alpha-tag" by default and stays "Alpha Tag" with slugging off. A value that is already a slug gives the same tag either way. |
| TagPaths.TagPath.UrlFor | lib/jekyll/collection_pages/tag_path.rb:38-46 | The URL is nil exactly for nil. Any other URL starts with '/'. It ends with '/' for an index file. Otherwise it ends with the file name. |
| TagPaths.DropFileSegment | lib/jekyll/collection_pages/tag_path.rb:62-68 | The list loses its last segment when that segment names an HTML file. Otherwise it is unchanged. |
| TagPaths.FirstWith | lib/jekyll/collection_pages/tag_path.rb:75 | Gives the position of the first segment holding the token, or nothing when no segment holds it. |
| TagPaths.PageOneDir | lib/jekyll/collection_pages/tag_path.rb:15-22 | Let k be the position of the first filled segment holding `:num`, or the length when there is none. Page 1's directory is the filled segments before k, without the one just before k when that names an HTML file. So none of its segments holds `:num`. |
| TagPaths.OtherPageDir | lib/jekyll/collection_pages/tag_path.rb:18-19 | For n ≠ 1 the directory is every filled segment with n put in for `:num`. Only a trailing file segment is dropped, and only it. |
| TagPaths.PageOneDirPrefix | lib/jekyll/collection_pages/tag_path.rb:15-22 | Page 1's directory is, segment by segment, a prefix of every other page's directory. |
| TagPaths.DirsWithoutNum | lib/jekyll/collection_pages/tag_path.rb:74-77 | Without `:num`, every page lives in the same directory. |
| TagPaths.DirsWithNum | lib/jekyll/collection_pages/tag_path.rb:74-77 | With `:num`, page 1's directory stops before it and agrees with page n's directory up to there. |
| TagPaths.SubstituteKeeps | lib/jekyll/collection_pages/tag_path.rb:50-54 | A segment without the token is left as it is. |
| TagPaths.SubstituteAbsent | lib/jekyll/collection_pages/tag_path.rb:56-60 | Substituting a token that no segment holds changes nothing. |
| TagPaths.PageOneFilename | lib/jekyll/collection_pages/tag_path.rb:24-32 | Page 1 is `index.html`, unless the template's last segment is a file segment holding `:field`. Then page 1 is that segment with the tag filled in. |
| TagPaths.DirJoins | lib/jekyll/collection_pages/tag_path.rb:21 | The directory is the '/'-join of its segments when they are non-empty and slash-free. |
| TagPaths.SubstituteSegments | lib/jekyll/collection_pages/tag_path.rb:50-60 | Filling in a non-empty slash-free value keeps every segment non-empty and slash-free. |
| TagPaths.NumCut | lib/jekyll/collection_pages/tag_path.rb:75-76 | The cut is the first segment holding `:num`, or the end when none does. No segment before it holds `:num`. |
| TagPaths.CleanUrl | lib/jekyll/collection_pages/tag_path.rb:38-46 | With a non-empty slash-free tag, an index page's URL is `/` or its '/'-joined directory between slashes. Any other page's URL is `/` followed by its directory segments and its file name, joined by '/'. |
| TagPaths.NamedUrl | lib/jekyll/collection_pages/tag_path.rb:41-45 | With clean directory segments, a page that is not an index file is reached at `/` followed by the segments and the file name, joined by '/'. |
| TagPathLayouts.SlugPlain | lib/jekyll/collection_pages/tag_path.rb:10 | A non-empty slug has no ':' and no '/', and names no HTML file. |
| TagPathLayouts.DirSplit | lib/jekyll/collection_pages/tag_path.rb:11-12 | `/<base>/:field/page:num/index.html` splits into its segments and is not a per-tag file. |
| TagPathLayouts.DirFilled | lib/jekyll/collection_pages/tag_path.rb:50-54 | The tag replaces `:field` in that template, and nothing else changes. |
| TagPathLayouts.DirPageOne | lib/jekyll/collection_pages/tag_path.rb:15-22 | Page 1 of that template lives in `<base>/<tag>`. |
| TagPathLayouts.DirOtherPage | lib/jekyll/collection_pages/tag_path.rb:15-22 | Page n ≠ 1 of that template lives in `<base>/<tag>/page<n>`. |
| TagPathLayouts.DirFilename | lib/jekyll/collection_pages/tag_path.rb:24-36 | Every page of that template is named `index.html`. |
| TagPathLayouts.DirectoryLayoutPageOne | lib/jekyll/collection_pages/tag_path.rb:15-46 | For a plain base and a plain tag, page 1 is `index.html` in `<base>/<tag>`, reached at `/<base>/<tag>/`. Plain means non-empty, with no '/' or ':', and not a file name. |
| TagPathLayouts.DirectoryLayoutOtherPage | lib/jekyll/collection_pages/tag_path.rb:15-46 | For a plain base and a plain tag, page n ≠ 1 is `index.html` in `<base>/<tag>/page<n>`, reached at that directory between slashes. |
| TagPathLayouts.FileSplit | lib/jekyll/collection_pages/tag_path.rb:11-12 | `/<base>/:field.html` splits into its segments and is a per-tag file. |
| TagPathLayouts.FileFilled | lib/jekyll/collection_pages/tag_path.rb:50-54 | The tag turns the file segment into `<tag>.html`. |
| TagPathLayouts.FilePageOne | lib/jekyll/collection_pages/tag_path.rb:15-22 | Page 1 of a per-tag file lives in `<base>`. |
| TagPathLayouts.FilePageOneName | lib/jekyll/collection_pages/tag_path.rb:28-29 | Page 1 of a per-tag file is named `<tag>.html`. |
| TagPathLayouts.FileLayoutPageOne | lib/jekyll/collection_pages/tag_path.rb:12-46 | For a plain base and a plain tag other than `index`, page 1 is `<tag>.html` in `<base>`. It is reached at `/<base>/<tag>.html`, or at `/<tag>.html` without a base. |
| TagPathLayouts.ExamplePageOne | lib/jekyll/collection_pages/tag_path.rb:8-46 | For `/docs/category/:field/page:num/index.html` and `Alpha Tag`, page 1 is `index.html` in `docs/category/alpha-tag`, at `/docs/category/alpha-tag/`. |
| TagPathLayouts.ExampleOtherPages | lib/jekyll/collection_pages/tag_path.rb:8-46 | For the same template and tag, page n ≠ 1 lives in `docs/category/alpha-tag/page<n>`. Its URL is that directory between slashes. |
| TagPathLayouts.FileExamplePageOne | lib/jekyll/collection_pages/tag_path.rb:8-46 | For `/docs/category/:field.html` and `Alpha Tag`, page 1 is `alpha-tag.html` in `docs/category`, at `/docs/category/alpha-tag.html`. |
| TagPagers.CalculatePages | lib/jekyll/collection_pages/tag_pager.rb:19-24 | There is one page without a positive `per_page`. Otherwise the count is the integer ceiling of size / `per_page`: the pages hold every document and the last one is not empty. |
| TagPagers.RubySlice | lib/jekyll/collection_pages/tag_pager.rb:46 | `Array#slice(start, length)` is nil iff the start lies outside `-size..size`. Otherwise it is the window from the start, counted from the end when negative, cut at the end of the list. |
| TagPagers.NewTagPager | lib/jekyll/collection_pages/tag_pager.rb:26-34 | The pager stores `per_page` when it is positive and 0 otherwise. It also stores the input size, the page count and the page's slice. |
| TagPagers.NoPaginationOnePage | lib/jekyll/collection_pages/tag_pager.rb:19-47 | Without a positive `per_page` there is one page and it holds every document. |
| TagPagers.EmptyListNoPages | lib/jekyll/collection_pages/tag_pager.rb:23 | With pagination, an empty list has no pages. |
| TagPagers.PageWindow | lib/jekyll/collection_pages/tag_pager.rb:42-47 | For page ≥ 1 the posts are `all[(page-1)*per_page .. min(page*per_page, n))`. They are empty when the start is past the end, and never more than `per_page`. |
| TagPagers.NavigationInRange | lib/jekyll/collection_pages/tag_pager.rb:49-55 | `previous_page` is page - 1 exactly when page > 1, and nil otherwise. `next_page` is page + 1 exactly when page < `total_pages`, and nil otherwise. |
| TagPagers.PagesPrefix | lib/jekyll/collection_pages/tag_pager.rb:42-47 | The slices of pages 1..m together are the first m·`per_page` documents. |
| TagPagers.PagesCoverAll | lib/jekyll/collection_pages/tag_pager.rb:19-47 | The slices of pages 1..`total_pages`, concatenated, are exactly the input list. |
| CollectionConfigs.NewCollectionConfig | lib/jekyll/collection_pages/collection_config.rb:8-20 | An accepted entry's `per_page` is nil or positive. |
| CollectionConfigs.NormalizePaginate | lib/jekyll/collection_pages/collection_config.rb:34-47 | The result is nil or a positive integer. The only error is the invalid-paginate error for that value, collection and field. |
| CollectionConfigs.PaginateValues | lib/jekyll/collection_pages/collection_config.rb:34-46 | For every input: nil stays nil. An integer, or a string `Integer()` reads as one (`n.to_s` among them), is kept when positive and gives nil otherwise. A string `Integer()` refuses, a boolean and any other value raise the invalid-paginate error. |
| CollectionConfigs.EscapedPlain | lib/jekyll/collection_pages/collection_config.rb:45-46 | `inspect` writes a string with no quote, backslash, `#` or control character as it is. |
| CollectionConfigs.EscapedExample | lib/jekyll/collection_pages/collection_config.rb:45-46 | `inspect` puts a backslash before a quote or a backslash inside the string. |
| CollectionConfigs.PaginateExamples | lib/jekyll/collection_pages/collection_config.rb:34-47 | An absent value gives nil. `5` and `'5'` give 5. `0` and `-3` give nil. `'abc'` is refused. |
| CollectionConfigs.NotMappingRefused | lib/jekyll/collection_pages/collection_config.rb:9-12 | An entry that is not a mapping is refused, with its shown value. |
| CollectionConfigs.MissingKeysNamed | lib/jekyll/collection_pages/collection_config.rb:24-32 | An entry is refused iff `collection` or `field` is missing. The error names exactly the missing keys, `collection` first. |
| CollectionConfigs.PaginateCheckedFirst | lib/jekyll/collection_pages/collection_config.rb:17-19 | An invalid `paginate` is reported even when keys are missing. |
| CollectionConfigs.PathDefaultsToCollection | lib/jekyll/collection_pages/collection_config.rb:15 | Without `path`, pages are laid out under the collection name. |
| CollectionConfigs.LayoutDefault | lib/jekyll/collection_pages/collection_config.rb:16 | Without `layout`, the layout is `collection_layout`. |
| CollectionConfigs.DefaultLayoutKept | lib/jekyll/collection_pages/collection_config.rb:16 | `collection_layout` is unchanged by normalisation. |
| CollectionConfigs.PlainLayoutKept | lib/jekyll/collection_pages/collection_config.rb:49-51 | A name with no '.' that is not under `_layouts/` is kept. |
| CollectionConfigs.LastIndexOf | lib/jekyll/collection_pages/collection_config.rb:50 | Finds the last '.', or nothing when there is none. |
| CollectionConfigs.StripExtensionShape | lib/jekyll/collection_pages/collection_config.rb:50 | Stripping keeps a prefix. It removes exactly a '.' followed by a non-empty dot-free tail, or nothing when there is no such tail. |
| CollectionConfigs.ExtensionFound | lib/jekyll/collection_pages/collection_config.rb:50 | `<base>.<ext>` with a dot-free extension loses exactly `.<ext>`. |
| CollectionConfigs.LayoutRoundTrip | lib/jekyll/collection_pages/collection_config.rb:49-51 | Normalising `_layouts/<name>.<ext>` or `<name>.<ext>` gives `<name>`, subdirectories included. |
| TagGroups.SortedTags | lib/jekyll/collection_pages/collection_pager.rb:75-92 | The nested loops and the sort compute `GroupByTag` of the collection's documents, and nothing for a missing collection. |
| TagGroups.CollectTags | lib/jekyll/collection_pages/collection_pager.rb:81-90 | The loop over documents leaves a map whose keys, in first-seen order, and groups agree with every (tag, document) pair. |
| TagGroups.RegisterTags | lib/jekyll/collection_pages/collection_pager.rb:85-89 | The loop over one document's tags extends that agreement by the document's pairs. |
| TagGroups.RegisterStep | lib/jekyll/collection_pages/collection_pager.rb:87-88 | `tags[tag] ||= []` followed by `<< doc` keeps the agreement for one more pair. |
| TagGroups.RegistryGroups | lib/jekyll/collection_pages/collection_pager.rb:91 | Mapping the sorted keys to their groups gives `GroupByTag`. |
| TagGroups.DocPairs | lib/jekyll/collection_pages/collection_pager.rb:85-86 | A document gives one pair per listed tag, in list order. |
| TagGroups.PairsSnoc | lib/jekyll/collection_pages/collection_pager.rb:81 | One more document adds exactly its own pairs at the end. |
| TagGroups.GroupTags | lib/jekyll/collection_pages/collection_pager.rb:75-92 | The groups' tags are strictly ascending. They are exactly the tags that occur in the documents. |
| TagGroups.GroupDocs | lib/jekyll/collection_pages/collection_pager.rb:75-92 | Each group holds, in collection order, every document tagged with its tag, once per occurrence. No group is empty. |
| TagGroups.SkipsUntagged | lib/jekyll/collection_pages/collection_pager.rb:83 | A document whose field is absent or false changes no group. |
| TagGroups.SeenTags | lib/jekyll/collection_pages/collection_pager.rb:86-87 | The first-seen keys are distinct, and they are exactly the tags that occur. |
| TagGroups.FirstSeenTags | lib/jekyll/collection_pages/collection_pager.rb:87 | The first-seen keys of a list of pairs are distinct, and they are exactly the pairs' tags. |
| TagGroups.CollectedTagged | lib/jekyll/collection_pages/collection_pager.rb:85-89 | Collecting a tag's documents from the pairs gives every tagged document, once per occurrence, in order. |
| TagGroups.CollectedNonEmpty | lib/jekyll/collection_pages/collection_pager.rb:87-88 | A seen tag has at least one document. |
| TagGroups.UnseenEmpty | lib/jekyll/collection_pages/collection_pager.rb:87 | An unseen tag has no documents. |
| CollectionPagers.NewCollectionPager | lib/jekyll/collection_pages/collection_pager.rb:6-14 | The constructor groups the tags, compiles the template and computes the permalink, or raises the template error. |
| CollectionPagers.PagerTemplate | lib/jekyll/collection_pages/collection_pager.rb:10-12 | The pager is created iff the template compiles, and otherwise fails with that error. Its template is `/` followed by the well-formed compiled path, and its tags are the sorted groups. |
| CollectionPagers.PaginationRequiredIffSet | lib/jekyll/collection_pages/collection_pager.rb:11 | For an accepted configuration, pagination is required in the template iff `per_page` is set. |
| CollectionPagers.PlaceholderPageOne | lib/jekyll/collection_pages/collection_pager.rb:13 | `url_for(1)` with the unslugified `:field` tag is a site-absolute URL. For an index file it is page 1's directory between slashes. |
| CollectionPagers.PermalinkShape | lib/jekyll/collection_pages/collection_pager.rb:13 | The recorded permalink is a site-absolute URL. For an index-file template it is page 1's directory between slashes. |
| CollectionPagers.MissingCollectionEmpty | lib/jekyll/collection_pages/collection_pager.rb:78 | A missing collection gives no pages and empty `labels` and `pages`, while the template and the permalink are still recorded. |
| CollectionPagers.TagEntries | lib/jekyll/collection_pages/collection_pager.rb:27-31 | For every tag: `labels[tag].pages` is its page list, `labels[tag].index` is its first page, and `pages[tag]` is every document tagged with it. |
| CollectionPagers.SetEntry | lib/jekyll/collection_pages/collection_pager.rb:42-49 | Both `\|\|= {}` steps and the assignment set the one `[collection][field]` entry. Every other collection, and every other field of that collection, is unchanged. |
| CollectionPagers.CollectionPager.BuildPage | lib/jekyll/collection_pages/collection_pager.rb:52-73 | The page carries the tag as title, the page number, the configured layout and the template. Its posts are the pager's slice for that page. It has a paginator iff `per_page` is set, and that paginator is the page's `TagPager`. |
| CollectionPagers.CollectionPager.PagesOf | lib/jekyll/collection_pages/collection_pager.rb:20-22 | A tag gets `calculate_pages` pages. |
| CollectionPagers.CollectionPager.PostsUpTo | lib/jekyll/collection_pages/collection_pager.rb:20-26 | The documents of a tag's first m pages are the pager's first m slices. |
| CollectionPagers.CollectionPager.PagesHoldGroup | lib/jekyll/collection_pages/collection_pager.rb:20-26 | The pages built for a tag hold, in page order, every document of the tag exactly once. |
| CollectionPagers.CollectionPager.PageAt | lib/jekyll/collection_pages/collection_pager.rb:22-26 | The k-th page built for a tag is page k + 1. |
| CollectionPagers.CollectionPager.PageCount | lib/jekyll/collection_pages/collection_pager.rb:19-26 | All tags together get exactly the sum of their page counts. |
| CollectionPagers.CollectionPager.PagePosition | lib/jekyll/collection_pages/collection_pager.rb:19-26 | Page k + 1 of the i-th tag sits right after the pages of the earlier tags, so pages are ordered by tag, then by page number. |
| CollectionPagers.CollectionPager.IndexIsFirstPage | lib/jekyll/collection_pages/collection_pager.rb:28-31 | A tag with documents has a first page, and it is page 1. |
| CollectionPagers.CollectionPager.OnePageWithoutPagination | lib/jekyll/collection_pages/collection_pager.rb:16-73 | Without `per_page` every tag gets one page, numbered 1, with every document and no paginator. |
| CollectionPagers.CollectionPager.NavigationPaths | lib/jekyll/collection_pages/collection_pager.rb:56-59 | The previous and next paths are the tag path's URLs of the neighbouring pages. They are nil exactly at the first and the last page. |
| CollectionPagers.CollectionPager.MapKeys | lib/jekyll/collection_pages/collection_pager.rb:27-31 | The labels and documents maps have exactly the groups' tags as keys. |
| CollectionPagers.CollectionPager.GroupEntry | lib/jekyll/collection_pages/collection_pager.rb:27-31 | With distinct tags, each tag's label holds its pages and its first page, and its document entry is its documents. |
| CollectionPagers.CollectionPager.OneMoreGroup | lib/jekyll/collection_pages/collection_pager.rb:19-31 | One more iteration of the loop over tags appends that tag's pages and sets that tag's two map entries. |
| CollectionPagers.CollectionPager.AddTagPages | lib/jekyll/collection_pages/collection_pager.rb:20-26 | The page loop appends exactly the tag's pages to the site, in order, and returns them. |
| CollectionPagers.CollectionPager.SetMetadata | lib/jekyll/collection_pages/collection_pager.rb:41-50 | Only the `[collection][field]` entry of the registry changes, and it becomes the template, the permalink and the two maps. |
| CollectionPagers.CollectionPager.CreatePages | lib/jekyll/collection_pages/collection_pager.rb:16-37 | The existing pages are kept and every tag's pages are appended after them. The registry entry is the one `set_metadata` writes. |

## Left out

- Logging: every `Jekyll.logger` call is left out (debug, info, warn and error). None of them affects the result.
- Floating point: `(size.to_f / per_page).ceil` is modelled as integer ceiling division. The two agree for any list whose size fits a double exactly.
- `Kernel#Integer`: integers and strings are modelled. For a string the model covers surrounding ASCII whitespace, an optional sign and the `0x`, `0b`, `0o`, `0d` and bare leading-`0` prefixes. Underscores between digits are not modelled: such strings are refused, where Ruby accepts them. Floats and other numeric types are refused, where Ruby truncates them.
- Slug: `Utils.slugify` is Jekyll's, and its source is not part of this model. The model slugs ASCII in its default mode: it keeps letters and digits, lower-cases them, and turns every other run of characters into one '-'. A leading and a trailing '-' are dropped. Non-ASCII characters are kept as they are, without Unicode classification or case folding.
- Value conversions: collection, field, layout and tag values that are not strings are modelled through their `to_s` text (`Value`, `ValueText`). `inspect` is exact for nil, integers and booleans. For strings it escapes quotes, backslashes, `#{`, `#$`, `#@` and the named control characters. Other control characters and non-printable characters, which Ruby writes as `\u` or `\x` escapes, are kept as they are. Any other value is given by its `inspect` text.
- Tags: a tag value that is neither a string nor a list of strings is left out. The model has no error for a tag list that cannot be enumerated, and no error for `sort` on keys of mixed types.
- `TagPager#to_liquid`: the record's fields stand for the map it builds.
- Ruby Hash key order is modelled by a list of keys in first-seen order kept beside the map. The maps the model records, `labels` and `pages`, carry no order.
- The site holds only `collections`, `pages` and `data['collection_pages']`. Other `site.data` keys and every other part of a Jekyll site are left out.
- `TagPage`: `tag_page.rb` is not part of this model. Its superclass `PageWithoutAFile` and its `process` cannot be seen. A page is a datatype whose `dir`, `name` and `tag` follow from its template and tag exactly as `build_page` computes them.
- `lib/jekyll/collection_pages.rb`: this earlier, superseded implementation is not part of this model. Its pager disagrees with the files modelled here.
- `sorted_tags` and `create_pages` are split into smaller methods, one per loop. Each method's contract states what its loop leaves behind.
- CollectionConfigs.NewCollectionConfig: its contract states only the range of `per_page`. The error cases, the defaults for path and layout, and the layout normalisation are stated by the lemmas next to it.
