# Portfolio site core, modelled in Dafny

This project models the data-handling core of a personal portfolio site built on
Next.js. It covers four pieces.

- **Portfolio data** (`src/lib/getPortfolioData.ts`). For each entry of the
  portfolio configuration, the site reads the blog post named by the entry's
  slug. It takes the title, description, tags and hero image from the post's
  front matter unless the entry overrides them. Entries whose post cannot be
  read are dropped. Front-matter tags are accepted as a list or as a
  comma-separated string.
- **Blog index** (`src/app/blog/page.tsx`). The site lists the `.mdx` files of
  the blog directory. It reads each file's front matter, drops posts that fail
  to read or lack a string title, date or description, and sorts the rest
  newest first.
- **Blog list filter** (`src/app/blog/BlogContent.tsx`). The blog list keeps one
  piece of state, the active filter chip. It shows all posts or only those of
  one content type, and gives each content type a display label and a badge
  colour.
- **Header** (`src/components/Header.tsx`). The section links are the
  navigation links that carry a section id. A page counts as a section page
  when it is the home page or the path of a section link. The scroll handler
  scans the sections backwards to decide which link to highlight. The route
  effect closes the menu and highlights the current path. The menu button
  toggles the mobile menu, and every link closes it.

Modules:

- `Wrappers`: `Option`, with `GetOr` standing for JavaScript's `??`.
- `Seqs`: dropping `null`s from a mapped list (`Somes`), where the survivors
  came from (`SomeIndices`), and `IsSubsequence`.
- `JsString`: `String.prototype.trim` over the ECMAScript white-space and
  line-terminator set, `split` on a one-character separator, and `endsWith`.
- `Content`: front matter as parsed by gray-matter, and the blog directory as
  a map from file name to an optional parsed file.
- `Portfolio`, `BlogIndex`, `BlogContent`, `Header`: the four source files.

The two React components are modelled as classes. Their fields are the
component state. Each handler and effect is a method that updates those
fields. The mapping and filtering are functions on sequences. The
one part of the source that works in place, `Array.prototype.sort`, becomes
an insertion sort on an `array`. The backward `for` loop in `onScroll` stays a
loop.

Where the source reads the outside world, the model takes that world as a
parameter:

- the blog directory listing and file contents become a `Directory` value;
- `window.scrollY` becomes a real number `y`;
- the section elements' `offsetTop` values, which the DOM gives as whole
  pixels, become a map from section id to an integer offset;
- the path from `usePathname` becomes `pathname`;
- a post date becomes an integer `dateKey`, standing for the time that
  `new Date(date)` parses it to.

## Model

| member | source | states |
|---|---|---|
| `Wrappers.Option.GetOr` | src/lib/getPortfolioData.ts:32-35 | `a ?? b` gives the value when it is present, and the default otherwise |
| `JsString.TrimIsSlice` | src/lib/getPortfolioData.ts:15-16 | `trim` returns a contiguous slice of its input, and everything it cuts from either end is white space |
| `JsString.TrimStart` | src/lib/getPortfolioData.ts:15-16 | stripping leading white space never lengthens the string, and what is left does not begin with white space |
| `JsString.TrimEnd` | src/lib/getPortfolioData.ts:15-16 | stripping trailing white space never lengthens the string, and what is left does not end with white space |
| `JsString.Trim` | src/lib/getPortfolioData.ts:15-16 | `trim` never lengthens the string, and its result does not end with white space (the start is `TrimEnds`) |
| `JsString.TrimEnds` | src/lib/getPortfolioData.ts:15-16 | a trimmed string neither starts nor ends with white space, and a string with no white space at either end is returned unchanged |
| `JsString.TrimIdempotent` | src/lib/getPortfolioData.ts:15-16 | trimming twice gives the same result as trimming once |
| `JsString.Count` | src/lib/getPortfolioData.ts:16 | the number of separators is at most the length, and it is zero exactly when the separator does not occur |
| `JsString.Split` | src/lib/getPortfolioData.ts:16 | `split(',')` yields one piece more than there are commas, no piece holds a comma, and re-joining the pieces with commas gives the input back |
| `JsString.SplitJoin` | src/lib/getPortfolioData.ts:16 | splitting a comma-joined list of comma-free pieces gives exactly those pieces back |
| `JsString.TrimEach` | src/lib/getPortfolioData.ts:15-16 | `.map(t => t.trim())` keeps the length and trims each element at its position |
| `Portfolio.NormalizeTags` | src/lib/getPortfolioData.ts:14-18 | for a list, each element trimmed in place, or no result (the thrown `TypeError`) exactly when some element is not a string; for a string, one tag per comma-separated piece, count of commas plus one, each trimmed; for anything else, no tags |
| `Seqs.Somes` | src/lib/getPortfolioData.ts:42 | dropping the `null`s keeps at most as many entries, and every value kept was in the input |
| `Seqs.SomesKeeps` | src/app/blog/page.tsx:50 | every non-`null` entry survives the filter |
| `Seqs.SomesOfAllSome` | src/lib/getPortfolioData.ts:42 | when no entry is `null`, the filter drops nothing and keeps every value at its position |
| `Portfolio.NormalizedTagsAreTrimmed` | src/lib/getPortfolioData.ts:14-18 | no normalized tag begins or ends with white space, and no tag taken from a string holds a comma |
| `Portfolio.StringAndListTagsAgree` | src/lib/getPortfolioData.ts:15-16 | tags written as `"a, b, c"` and tags written as a list normalize to the same tags |
| `Portfolio.StringTagsExample` | src/lib/getPortfolioData.ts:16 | `"a, b, c"` normalizes to `["a", "b", "c"]` |
| `Portfolio.ListTagsExample` | src/lib/getPortfolioData.ts:15 | a list of already-trimmed strings normalizes to itself |
| `Portfolio.EmptyStringTags` | src/lib/getPortfolioData.ts:16 | an empty tags string yields one empty tag, not none |
| `Portfolio.PostFileName` | src/lib/getPortfolioData.ts:25 | the file read for an entry is its slug followed by `.mdx` |
| `Portfolio.ResolveEntry` | src/lib/getPortfolioData.ts:24-41 | an entry yields no project exactly when its post cannot be read, or when it has no tag override and the front-matter tags are a list with a non-string element; a project always keeps the entry's slug |
| `Portfolio.ResolvePrecedence` | src/lib/getPortfolioData.ts:30-36 | each field is the override if one is set, then the front-matter value, then the fallback: the slug for the title, `""` for description and image |
| `Portfolio.GetPortfolioData` | src/lib/getPortfolioData.ts:20-43 | the portfolio has at most as many projects as there are entries, and each project is resolved from some entry |
| `Portfolio.Resolved` | src/lib/getPortfolioData.ts:23-41 | the `.map` keeps one result per configured entry, at that entry's position |
| `Portfolio.ConfigurationOrder` | src/lib/getPortfolioData.ts:23-42 | the projects are exactly the resolved entries, in configuration order: the k-th project comes from the k-th entry that resolves, and every entry that resolves contributes |
| `Portfolio.GetPortfolioDataConcat` | src/lib/getPortfolioData.ts:23-42 | the portfolio of two configuration lists joined is the two portfolios joined |
| `Portfolio.OneEntry` | src/lib/getPortfolioData.ts:37-42 | an entry that does not resolve contributes nothing; one that resolves contributes its project at its own place; the portfolio is one project longer with the entry exactly when it resolves |
| `Portfolio.GetPortfolioDataAround` | src/lib/getPortfolioData.ts:23-42 | one entry contributes its project at its own place when it resolves, and nothing otherwise |
| `Portfolio.AllEntriesResolve` | src/lib/getPortfolioData.ts:23-42 | when every entry resolves, the portfolio has one project per entry, in order |
| `Portfolio.OverriddenTitles` | src/lib/getPortfolioData.ts:31-32 | when every entry resolves, each project carries its entry's slug, and an entry with a title override shows that title |
| `Portfolio.ShippedPortfolio` | src/data/portfolioConfig.ts:9-16 | with every configured post in place, the site shows six projects in configuration order with the configured slugs, the first and last titled by their overrides |
| `Content.ReadFile` | src/app/blog/page.tsx:26-27 | reading succeeds exactly when the directory lists the file and it parses, and it returns that file's contents |
| `BlogIndex.MdxFileNames` | src/app/blog/page.tsx:20-21 | the `.mdx` filter keeps at most the files it is given |
| `BlogIndex.MdxFileNamesCount` | src/app/blog/page.tsx:21 | a name is kept exactly as many times as it is listed if it ends in `.mdx`, and never otherwise |
| `BlogIndex.MdxFileNamesInOrder` | src/app/blog/page.tsx:21 | the kept names keep the directory listing's order |
| `BlogIndex.MdxFileNamesConcat` | src/app/blog/page.tsx:21 | filtering two listings joined is filtering each, then joining |
| `BlogIndex.StripMdx` | src/app/blog/page.tsx:23 | the slug of an `.mdx` file is its name without the final `.mdx`, and any other name is left unchanged |
| `BlogIndex.ReadPostMetadata` | src/app/blog/page.tsx:22-47 | a file yields metadata exactly when it reads and its title, date and description are all strings; the metadata copies them, the reading time and the date |
| `BlogIndex.AllPostsData` | src/app/blog/page.tsx:20-47 | one metadata result per `.mdx` name, at that name's position |
| `BlogIndex.ValidPosts` | src/app/blog/page.tsx:50 | there are never more valid posts than listed files |
| `BlogIndex.ValidPostsExactly` | src/app/blog/page.tsx:19-50 | a post is listed exactly when some `.mdx` file in the directory yields it, and its slug plus `.mdx` is that file |
| `BlogIndex.ValidPostsConcat` | src/app/blog/page.tsx:20-50 | the valid posts of two listings joined are the valid posts of each, joined |
| `BlogIndex.ValidPostsSingle` | src/app/blog/page.tsx:20-50 | a single file yields its post if it is `.mdx` and valid, and nothing otherwise |
| `BlogIndex.OneFile` | src/app/blog/page.tsx:31-50 | a non-`.mdx` or invalid file contributes nothing; a valid one contributes its post at its own place |
| `BlogIndex.SortNewestFirst` | src/app/blog/page.tsx:53 | sorting leaves the posts newest first and permutes them, so nothing is added or lost |
| `BlogIndex.GetAllPostsMetadata` | src/app/blog/page.tsx:18-54 | the result holds exactly the valid posts, each as often, newest first |
| `BlogContent.FilterValue` | src/app/blog/BlogContent.tsx:17 | the filter value is `"all"` exactly for the All chip |
| `BlogContent.FormatContentType` | src/app/blog/BlogContent.tsx:19-23 | the label differs from the content type exactly for `technical` and `strategy`; any other type is shown as it is |
| `BlogContent.ContentTypeBadgeClass` | src/app/blog/BlogContent.tsx:25-29 | the badge is teal, violet or gray, and it is gray exactly for a type other than `technical` and `strategy` |
| `BlogContent.RecognisedContentTypes` | src/app/blog/BlogContent.tsx:19-29 | a content type gets a coloured badge exactly when its label differs from the raw type, that is for `technical` (teal) and `strategy` (violet) only; the label "Technical Deep Dive" comes from `technical` or from itself, and the label "Strategy" from `strategy` or from itself |
| `BlogContent.PostsOfType` | src/app/blog/BlogContent.tsx:37 | the filter keeps only posts of the type, and every post of the type as often as it occurs |
| `BlogContent.Filtered` | src/app/blog/BlogContent.tsx:34-37 | "All" shows every post unchanged; any other filter shows exactly the posts of that type |
| `BlogContent.PostsOfTypeInOrder` | src/app/blog/BlogContent.tsx:37 | filtering keeps the given order of posts |
| `BlogContent.PostsOfTypeKeepsMatching` | src/app/blog/BlogContent.tsx:37 | a list whose posts all have the type is kept unchanged |
| `BlogContent.FilteredIdempotent` | src/app/blog/BlogContent.tsx:34-37 | applying a filter a second time changes nothing |
| `BlogContent.FilteredInOrder` | src/app/blog/BlogContent.tsx:34-37 | the shown posts keep the given order |
| `BlogContent.ChipLabelsMatchBadges` | src/app/blog/BlogContent.tsx:39-43 | the chips are All, Strategy and Technical in that order, and every chip but All carries the label its type is shown with |
| `BlogContent.FilterState.constructor` | src/app/blog/BlogContent.tsx:32 | the list starts with the All filter |
| `BlogContent.FilterState.ClickChip` | src/app/blog/BlogContent.tsx:52 | clicking a chip makes its value the active filter |
| `BlogContent.FilterState.Visible` | src/app/blog/BlogContent.tsx:34-37 | on All every post is shown, and never more posts than were given |
| `Header.SectionLinksOf` | src/components/Header.tsx:21-24 | the section links are at most the navigation links, and each has a section id |
| `Header.SectionLinksCount` | src/components/Header.tsx:21-24 | a navigation link is a section link exactly when it has a section id, as often as it occurs |
| `Header.SectionLinksInOrder` | src/components/Header.tsx:21-24 | the section links keep the navigation order |
| `Header.SectionLinksDerived` | src/components/Header.tsx:9-24 | filtering the nine navigation links gives the seven section links: every link but Blog and Interests, in order |
| `Header.HasHref` | src/components/Header.tsx:31 | `.some(link => link.href === p)` is true exactly when some link has that href |
| `Header.IsSectionPage` | src/components/Header.tsx:31 | a page is a section page exactly when it is `/` or the href of some section link |
| `Header.SectionPages` | src/components/Header.tsx:31 | the section pages are exactly `/` and the seven section paths |
| `Header.ActiveAfterScan` | src/components/Header.tsx:51 | the highlight is the last section reached when its href is not empty, otherwise the page's own path, or nothing on `/`; it is never anything but nothing, the path or a scanned link |
| `Header.ScrollTarget` | src/components/Header.tsx:39-51 | on the real section links, the highlight is the last section reached, else the path, else nothing on `/` |
| `Header.LastReached` | src/components/Header.tsx:40-49 | the scan's index is the last section that exists on the page and whose top, less 80 pixels, has been scrolled to; no later section qualifies |
| `Header.ScanSections` | src/components/Header.tsx:39-49 | the backward loop returns the href of that last reached section, or `""` when none is reached |
| `Header.ScrollTargetIsSectionLink` | src/components/Header.tsx:51 | on a section page the highlighted link is a section link or nothing, and nothing only on the home page with no section reached |
| `Header.HeaderState.constructor` | src/components/Header.tsx:27-69 | after the first render and its effects the menu is closed, `scrolled` is whether the page is below 10 pixels, and the highlight is the scroll target on a section page and the path elsewhere |
| `Header.HeaderState.OnScroll` | src/components/Header.tsx:33-52 | `scrolled` follows the 10-pixel threshold; on a section page the highlight becomes the scroll target; elsewhere it is kept; the path and menu are untouched |
| `Header.HeaderState.RouteEffect` | src/components/Header.tsx:54-63 | the menu closes; the path is highlighted unless this is the home page, where the highlight is kept |
| `Header.HeaderState.Navigate` | src/components/Header.tsx:54-69 | a changed path re-runs both effects, so the state depends only on the new path and scroll position; the same path changes nothing |
| `Header.HeaderState.ToggleMenu` | src/components/Header.tsx:116 | the menu button flips the menu and nothing else |
| `Header.HeaderState.CloseMenu` | src/components/Header.tsx:82-143 | a link click closes the menu and nothing else |

## Left out

- File system and front-matter parsing: `fs.readdirSync`, `fs.readFileSync` and
  gray-matter are not modelled. Their combined result is the `Directory` value.
  A file that is missing, unreadable or unparsable maps to no contents, which
  is the path into the source's `catch`.
- `path.join`: the model reads the file named by the slug plus `.mdx` directly.
  Slugs holding `/` or `..`, which `path.join` would normalize, are not modelled.
- Reading time: the `reading-time` library is not modelled. Its text is an
  opaque string stored with each file.
- Dates: `new Date(date)` is not modelled. Each file carries the integer its
  date parses to, so unparsable dates (`NaN`, where every comparison is false)
  are not modelled.
- BlogIndex.SortNewestFirst: the source's comparator never returns 0, so the
  order of posts with equal dates depends on the engine's sort. The model
  states only that the result is newest first and a permutation, not where
  ties go.
- Front-matter values of the wrong type: a title, description or hero image
  that is present but is not a string would pass through `??` unchanged in the
  source. The model treats such a value as absent. The blog index's `typeof`
  checks are modelled exactly.
- Tags: a tags list whose elements are not all strings makes `t.trim()` throw
  inside the `try`, so the entry is dropped. The model shows this as
  `NormalizeTags` giving no result.
- Logging: the `console.warn` and `console.error` calls are not modelled.
- DOM and browser: the DOM, `window` and the scroll listener, which is added
  and removed at src/components/Header.tsx:65-69, are not modelled. A scroll
  is a call of `OnScroll` with the new position, and sections missing from the
  page are ids absent from the offsets map.
- React scheduling: the model does not include React's batching and
  scheduling. `Navigate` runs the route effect and then the scroll handler
  once, in the order they are declared, and only when the path changes.
- Hidden posts: src/app/blog/page.tsx does not exclude hidden posts, so the
  model does not either.
- Presentational code: JSX layout, animation and class-name strings other than
  the badge classes are not modelled, nor is the empty-content-type badge
  guard at src/app/blog/BlogContent.tsx:71.
- The blog post detail page (src/app/blog/[slug]/page.tsx) and the section
  pages are not part of this model.
- Configuration data: src/data/portfolioConfig.ts appears only as the constant
  `Portfolio.PortfolioConfig`, which `Portfolio.ShippedPortfolio` is about.
