/** The portfolio projection: the configured list of blog posts, each joined
    with its post's front matter, overrides winning over front matter and
    front matter winning over defaults; entries whose post cannot be read
    are dropped. */
module Portfolio {
  import opened Wrappers
  import opened JsString
  import opened Content
  import Seqs

  /** One configured portfolio entry. */
  datatype ItemConfig = ItemConfig(
    blogSlug: string,
    titleOverride: Option<string>,
    descriptionOverride: Option<string>,
    tagsOverride: Option<seq<string>>,
    imageOverride: Option<string>)

  /** One projected portfolio entry. */
  datatype Project = Project(
    blogSlug: string,
    title: string,
    description: string,
    tags: seq<string>,
    imageUrl: string)

  /** Turns a front-matter `tags` value into a list: a list is trimmed element
      by element, a string is split on commas and each piece trimmed, anything
      else gives no tags. Trimming a list element that is not a string throws,
      which is `None`. */
  function NormalizeTags(raw: TagsValue): (r: Option<seq<string>>)
    ensures raw.TagList? ==> (r.Some? <==> forall k :: 0 <= k < |raw.items| ==> raw.items[k].Text?)
    ensures raw.TagList? && r.Some? ==>
      |r.value| == |raw.items| &&
      forall k :: 0 <= k < |r.value| ==> r.value[k] == Trim(raw.items[k].text)
    ensures raw.TagStr? ==>
      r.Some? && |r.value| == Count(raw.s, ',') + 1 &&
      forall k :: 0 <= k < |r.value| ==> r.value[k] == Trim(Split(raw.s, ',')[k])
    ensures raw.TagOther? ==> r == Some([])
  {
    match raw
    case TagList(items) =>
      if forall k :: 0 <= k < |items| ==> items[k].Text? then Some(TrimEach(Texts(items))) else None
    case TagStr(s) => Some(TrimEach(Split(s, ',')))
    case TagOther => Some([])
  }

  /** The strings of a list whose elements are all strings. */
  function Texts(items: seq<Scalar>): (r: seq<string>)
    requires forall k :: 0 <= k < |items| ==> items[k].Text?
    ensures |r| == |items| && forall k :: 0 <= k < |r| ==> items[k] == Text(r[k])
  {
    seq(|items|, k requires 0 <= k < |items| => items[k].text)
  }

  /** No normalized tag starts or ends with white space, and a tag taken from
      a string never holds a comma. */
  lemma NormalizedTagsAreTrimmed(raw: TagsValue)
    requires NormalizeTags(raw).Some?
    ensures forall k :: 0 <= k < |NormalizeTags(raw).value| ==>
      var t := NormalizeTags(raw).value[k];
      t != [] ==> !IsWhiteSpace(t[0]) && !IsWhiteSpace(t[|t| - 1])
    ensures raw.TagStr? ==> forall k :: 0 <= k < |NormalizeTags(raw).value| ==> ',' !in NormalizeTags(raw).value[k]
  {
    forall k | 0 <= k < |NormalizeTags(raw).value|
      ensures var t := NormalizeTags(raw).value[k];
        t != [] ==> !IsWhiteSpace(t[0]) && !IsWhiteSpace(t[|t| - 1])
    {
      var pieces := if raw.TagStr? then Split(raw.s, ',') else if raw.TagList? then Texts(raw.items) else [];
      assert NormalizeTags(raw).value[k] == Trim(pieces[k]);
      TrimEnds(pieces[k]);
    }
    if raw.TagStr? {
      forall k | 0 <= k < |NormalizeTags(raw).value|
        ensures ',' !in NormalizeTags(raw).value[k]
      {
        var piece := Split(raw.s, ',')[k];
        assert ',' !in piece;
        TrimNoNewChar(piece, ',');
      }
    }
  }

  /** Trimming only removes characters. */
  lemma TrimNoNewChar(s: string, c: char)
    requires c !in s
    ensures c !in Trim(s)
  {
    var i, j := TrimIsSlice(s);
    assert forall k :: 0 <= k < |Trim(s)| ==> Trim(s)[k] == s[i + k];
  }

  /** Tags given as one comma-separated string normalize exactly as the same
      tags given as a list, e.g. `"a, b, c"` and `["a", "b", "c"]`. */
  lemma {:induction false} StringAndListTagsAgree(tags: seq<string>, items: seq<Scalar>)
    requires |tags| >= 1
    requires forall k :: 0 <= k < |tags| ==> ',' !in tags[k]
    requires |items| == |tags| && forall k :: 0 <= k < |items| ==> items[k] == Text(tags[k])
    ensures NormalizeTags(TagStr(Join(tags, ','))) == NormalizeTags(TagList(items))
  {
    SplitJoin(tags, ',');
    assert Texts(items) == tags;
  }

  /** The tags `"a, b, c"` spelled as one string ... */
  lemma StringTagsExample()
    ensures NormalizeTags(TagStr("a, b, c")) == Some(["a", "b", "c"])
  {
    SplitExample();
    TrimSpacedExample();
  }

  /** ... and spelled as a list normalize alike. */
  lemma ListTagsExample()
    ensures NormalizeTags(TagList([Text("a"), Text("b"), Text("c")])) == Some(["a", "b", "c"])
  {
    assert Texts([Text("a"), Text("b"), Text("c")]) == ["a", "b", "c"];
    TrimPlainExample();
  }

  /** The empty string is one empty tag, not none. */
  lemma EmptyStringTags()
    ensures NormalizeTags(TagStr("")) == Some([""])
  {
    assert Split("", ',') == [""];
    assert Trim("") == "";
    assert TrimEach([""]) == [""];
  }

  lemma SplitExample()
    ensures Split("a, b, c", ',') == ["a", " b", " c"]
  {
    JoinExample();
    SplitJoin(["a", " b", " c"], ',');
  }

  lemma JoinExample()
    ensures Join(["a", " b", " c"], ',') == "a, b, c"
  {
    var pieces := ["a", " b", " c"];
    assert pieces[1..] == [" b", " c"] && pieces[1..][1..] == [" c"];
    assert Join([" c"], ',') == " c";
    assert Join([" b", " c"], ',') == " b" + [','] + " c";
  }

  /** The `.mdx` file a slug names. */
  function PostFileName(slug: string): (f: string)
    ensures |f| == |slug| + 4 && f[..|slug|] == slug && EndsWith(f, ".mdx")
  {
    slug + ".mdx"
  }

  /** One configured entry joined with its post: `None` when the post cannot be
      read or parsed, or when its front-matter tags are needed and trimming
      them throws. */
  function ResolveEntry(config: ItemConfig, dir: Directory): (r: Option<Project>)
    ensures r.None? <==>
      ReadFile(dir, PostFileName(config.blogSlug)).None? ||
      (config.tagsOverride.None? &&
       NormalizeTags(ReadFile(dir, PostFileName(config.blogSlug)).value.data.tags).None?)
    ensures r.Some? ==> r.value.blogSlug == config.blogSlug
  {
    match ReadFile(dir, PostFileName(config.blogSlug))
    case None => None
    case Some(file) =>
      var data := file.data;
      var tags := if config.tagsOverride.Some? then config.tagsOverride else NormalizeTags(data.tags);
      if tags.None? then None
      else Some(Project(
        config.blogSlug,
        config.titleOverride.GetOr(data.title.GetOr(config.blogSlug)),
        config.descriptionOverride.GetOr(data.description.GetOr("")),
        tags.value,
        config.imageOverride.GetOr(data.heroImage.GetOr(""))))
  }

  /** Every field of a projected entry follows `override ?? front matter ??
      default`: the override when configured, else the post's own value, else
      the slug (for the title) or the empty string. Configured tags are taken
      verbatim; otherwise the post's tags are normalized. */
  lemma ResolvePrecedence(config: ItemConfig, dir: Directory)
    requires ResolveEntry(config, dir).Some?
    ensures var p := ResolveEntry(config, dir).value;
      var data := ReadFile(dir, PostFileName(config.blogSlug)).value.data;
      && (config.titleOverride.Some? ==> p.title == config.titleOverride.value)
      && (config.titleOverride.None? && data.title.Some? ==> p.title == data.title.value)
      && (config.titleOverride.None? && data.title.None? ==> p.title == config.blogSlug)
      && (config.descriptionOverride.Some? ==> p.description == config.descriptionOverride.value)
      && (config.descriptionOverride.None? && data.description.Some? ==> p.description == data.description.value)
      && (config.descriptionOverride.None? && data.description.None? ==> p.description == "")
      && (config.imageOverride.Some? ==> p.imageUrl == config.imageOverride.value)
      && (config.imageOverride.None? && data.heroImage.Some? ==> p.imageUrl == data.heroImage.value)
      && (config.imageOverride.None? && data.heroImage.None? ==> p.imageUrl == "")
      && (config.tagsOverride.Some? ==> p.tags == config.tagsOverride.value)
      && (config.tagsOverride.None? ==> Some(p.tags) == NormalizeTags(data.tags))
  {
  }

  /** Each configured entry, resolved in configuration order. */
  function Resolved(configs: seq<ItemConfig>, dir: Directory): (r: seq<Option<Project>>)
    ensures |r| == |configs|
    ensures forall i :: 0 <= i < |configs| ==> r[i] == ResolveEntry(configs[i], dir)
  {
    seq(|configs|, i requires 0 <= i < |configs| => ResolveEntry(configs[i], dir))
  }

  /** `getPortfolioData`: the resolved entries, dropping the ones that failed. */
  function GetPortfolioData(configs: seq<ItemConfig>, dir: Directory): (r: seq<Project>)
    ensures |r| <= |configs|
    ensures forall k :: 0 <= k < |r| ==>
      exists i :: 0 <= i < |configs| && ResolveEntry(configs[i], dir) == Some(r[k])
  {
    Seqs.Somes(Resolved(configs, dir))
  }

  /** The output follows configuration order, not publication order: entry `k`
      comes from the `k`-th configured entry that resolves, carries its slug,
      and every entry that resolves is there. */
  lemma ConfigurationOrder(configs: seq<ItemConfig>, dir: Directory)
    ensures var idx := Seqs.SomeIndices(Resolved(configs, dir));
      var out := GetPortfolioData(configs, dir);
      && |idx| == |out|
      && (forall k, l :: 0 <= k < l < |idx| ==> idx[k] < idx[l])
      && (forall k :: 0 <= k < |idx| ==>
            idx[k] < |configs| && out[k].blogSlug == configs[idx[k]].blogSlug &&
            ResolveEntry(configs[idx[k]], dir) == Some(out[k]))
      && (forall i :: 0 <= i < |configs| ==>
            (ResolveEntry(configs[i], dir).Some? <==> i in idx))
  {
    Seqs.SomeIndicesExact(Resolved(configs, dir));
  }

  lemma ResolvedConcat(a: seq<ItemConfig>, b: seq<ItemConfig>, dir: Directory)
    ensures Resolved(a + b, dir) == Resolved(a, dir) + Resolved(b, dir)
  {
    assert forall i :: 0 <= i < |a + b| ==> (a + b)[i] == if i < |a| then a[i] else b[i - |a|];
  }

  /** The projection of two lists one after the other is the two projections
      one after the other: entries do not influence each other. */
  lemma GetPortfolioDataConcat(a: seq<ItemConfig>, b: seq<ItemConfig>, dir: Directory)
    ensures GetPortfolioData(a + b, dir) == GetPortfolioData(a, dir) + GetPortfolioData(b, dir)
  {
    ResolvedConcat(a, b, dir);
    Seqs.SomesConcat(Resolved(a, dir), Resolved(b, dir));
  }

  /** An entry that fails to resolve is silently left out — the list is one
      shorter — and the entries around it are untouched; one that resolves
      appears at its place. */
  lemma OneEntry(before: seq<ItemConfig>, config: ItemConfig, after: seq<ItemConfig>, dir: Directory)
    ensures ResolveEntry(config, dir).None? ==>
      GetPortfolioData(before + [config] + after, dir) ==
      GetPortfolioData(before, dir) + GetPortfolioData(after, dir)
    ensures ResolveEntry(config, dir).Some? ==>
      GetPortfolioData(before + [config] + after, dir) ==
      GetPortfolioData(before, dir) + [ResolveEntry(config, dir).value] + GetPortfolioData(after, dir)
    ensures |GetPortfolioData(before + [config] + after, dir)| ==
      |GetPortfolioData(before + after, dir)| + (if ResolveEntry(config, dir).Some? then 1 else 0)
  {
    var whole, rest := before + [config] + after, before + after;
    var pb, pa := GetPortfolioData(before, dir), GetPortfolioData(after, dir);
    GetPortfolioDataAround(before, config, after, dir);
    GetPortfolioDataConcat(before, after, dir);
    if ResolveEntry(config, dir).Some? {
      var p := ResolveEntry(config, dir).value;
      assert GetPortfolioData(whole, dir) == pb + [p] + pa;
      assert |pb + [p] + pa| == |pb + pa| + 1;
    } else {
      assert GetPortfolioData(whole, dir) == pb + [] + pa;
      assert pb + [] + pa == pb + pa;
    }
  }

  /** One entry between two lists contributes its project, when it resolves,
      at its own place. */
  lemma GetPortfolioDataAround(before: seq<ItemConfig>, config: ItemConfig, after: seq<ItemConfig>, dir: Directory)
    ensures var x := ResolveEntry(config, dir);
      GetPortfolioData(before + [config] + after, dir) ==
      GetPortfolioData(before, dir) + (if x.Some? then [x.value] else []) + GetPortfolioData(after, dir)
  {
    var ra, rb := Resolved(before, dir), Resolved(after, dir);
    var x := ResolveEntry(config, dir);
    ResolvedConcat(before + [config], after, dir);
    ResolvedConcat(before, [config], dir);
    assert Resolved([config], dir) == [x];
    Seqs.SomesAround(ra, x, rb);
  }

  /** When every configured post can be read, the portfolio is the
      configuration itself, entry for entry. */
  lemma AllEntriesResolve(configs: seq<ItemConfig>, dir: Directory)
    requires forall i :: 0 <= i < |configs| ==> ResolveEntry(configs[i], dir).Some?
    ensures |GetPortfolioData(configs, dir)| == |configs|
    ensures forall k :: 0 <= k < |configs| ==>
      GetPortfolioData(configs, dir)[k] == ResolveEntry(configs[k], dir).value
  {
    Seqs.SomesOfAllSome(Resolved(configs, dir));
  }

  /** The configuration the site ships. */
  const PortfolioConfig: seq<ItemConfig> := [
    ItemConfig("identity-graph", Some("Enterprise Identity Graphs / Customer360"), None, None, None),
    ItemConfig("ml-driven-marketing-personalization", Some("ML-Driven Marketing Personalization"), None, None, None),
    ItemConfig("enterprise-data-modernization", None, None, None, None),
    ItemConfig("bfsi-controls-monitoring", Some("Controls & Monitoring in Financial Services"), None, None, None),
    ItemConfig("ml-call-center", Some("ML-Powered Call Center Monitoring"), None, None, None),
    ItemConfig("llm-sql-modernization", Some("GenAI + HITL SQL Modernization"), None, None, None)
  ]

  /** When every entry resolves, an entry with a title override shows that
      title. */
  lemma OverriddenTitles(configs: seq<ItemConfig>, dir: Directory)
    requires forall i :: 0 <= i < |configs| ==> ResolveEntry(configs[i], dir).Some?
    ensures |GetPortfolioData(configs, dir)| == |configs|
    ensures forall k :: 0 <= k < |configs| ==>
      GetPortfolioData(configs, dir)[k].blogSlug == configs[k].blogSlug &&
      (configs[k].titleOverride.Some? ==>
         GetPortfolioData(configs, dir)[k].title == configs[k].titleOverride.value)
  {
    AllEntriesResolve(configs, dir);
    forall k | 0 <= k < |configs|
      ensures GetPortfolioData(configs, dir)[k].blogSlug == configs[k].blogSlug
      ensures configs[k].titleOverride.Some? ==>
        GetPortfolioData(configs, dir)[k].title == configs[k].titleOverride.value
    {
      ResolvePrecedence(configs[k], dir);
    }
  }

  /** With every configured post in place, the site shows six projects in
      configuration order, each with its entry's slug; the first is titled
      by its override. */
  lemma ShippedPortfolio(dir: Directory)
    requires forall i :: 0 <= i < |PortfolioConfig| ==> ResolveEntry(PortfolioConfig[i], dir).Some?
    ensures var out := GetPortfolioData(PortfolioConfig, dir);
      && |out| == 6
      && (forall k :: 0 <= k < |out| ==> out[k].blogSlug == PortfolioConfig[k].blogSlug)
      && out[0].title == "Enterprise Identity Graphs / Customer360"
      && out[5].title == "GenAI + HITL SQL Modernization"
  {
    OverriddenTitles(PortfolioConfig, dir);
  }
}
