/** The client-side blog list: content-type labels and badge colours, and the
    filter chips that narrow the list to one content type. */
module BlogContent {
  import Seqs

  /** A post as the list receives it. */
  datatype Post = Post(
    slug: string,
    title: string,
    date: string,
    description: string,
    readingTime: string,
    tags: seq<string>,
    contentType: string,
    traits: seq<string>)

  /** The three filter values `'all' | 'strategy' | 'technical'`. */
  datatype FilterType = All | Strategy | Technical

  /** The string each filter value stands for. */
  function FilterValue(f: FilterType): (v: string)
    ensures f == All <==> v == "all"
  {
    match f
    case All => "all"
    case Strategy => "strategy"
    case Technical => "technical"
  }

  /** The label shown for a content type: the two known types get their
      display names, any other type is shown as it is. */
  function FormatContentType(ct: string): (shown: string)
    ensures shown != ct <==> ct == "technical" || ct == "strategy"
  {
    if ct == "technical" then "Technical Deep Dive"
    else if ct == "strategy" then "Strategy"
    else ct
  }

  const TealBadge := "bg-teal-100 text-teal-700"
  const VioletBadge := "bg-violet-100 text-violet-700"
  const GrayBadge := "bg-gray-100 text-gray-600"

  /** The badge colour for a content type. */
  function ContentTypeBadgeClass(ct: string): (badge: string)
    ensures badge == TealBadge || badge == VioletBadge || badge == GrayBadge
    ensures badge == GrayBadge <==> ct != "technical" && ct != "strategy"
  {
    if ct == "technical" then TealBadge
    else if ct == "strategy" then VioletBadge
    else GrayBadge
  }

  /** The two case maps agree on what they recognise: a content type gets a
      coloured badge exactly when its label differs from the raw type —
      exactly for `"technical"` (teal) and `"strategy"` (violet). */
  lemma RecognisedContentTypes(ct: string)
    ensures ContentTypeBadgeClass(ct) != GrayBadge <==> FormatContentType(ct) != ct
    ensures ContentTypeBadgeClass(ct) != GrayBadge <==> ct == "technical" || ct == "strategy"
    ensures ContentTypeBadgeClass(ct) == TealBadge <==> ct == "technical"
    ensures ContentTypeBadgeClass(ct) == VioletBadge <==> ct == "strategy"
    ensures FormatContentType(ct) == "Technical Deep Dive" <==> ct == "technical" || ct == "Technical Deep Dive"
    ensures FormatContentType(ct) == "Strategy" <==> ct == "strategy" || ct == "Strategy"
  {
    assert "technical" != "Technical Deep Dive";
    assert "strategy" != "Strategy";
    assert TealBadge != GrayBadge && VioletBadge != GrayBadge && TealBadge != VioletBadge;
  }

  /** The posts whose content type is `ct`, in order. */
  function PostsOfType(posts: seq<Post>, ct: string): (r: seq<Post>)
    ensures |r| <= |posts|
    ensures forall k :: 0 <= k < |r| ==> r[k].contentType == ct
    ensures forall p :: multiset(r)[p] == if p.contentType == ct then multiset(posts)[p] else 0
  {
    if posts == [] then []
    else
      assert posts == [posts[0]] + posts[1..];
      (if posts[0].contentType == ct then [posts[0]] else []) + PostsOfType(posts[1..], ct)
  }

  /** `filtered`: every post for `'all'`; otherwise the posts of that type. */
  function Filtered(posts: seq<Post>, f: FilterType): (r: seq<Post>)
    ensures f == All ==> r == posts
    ensures f != All ==> forall k :: 0 <= k < |r| ==> r[k].contentType == FilterValue(f)
    ensures f != All ==> forall p :: multiset(r)[p] == if p.contentType == FilterValue(f) then multiset(posts)[p] else 0
    ensures |r| <= |posts|
  {
    if f == All then posts else PostsOfType(posts, FilterValue(f))
  }

  /** Filtering keeps the posts in the order they came. */
  lemma {:induction false} PostsOfTypeInOrder(posts: seq<Post>, ct: string)
    ensures Seqs.IsSubsequence(PostsOfType(posts, ct), posts)
  {
    if posts != [] {
      PostsOfTypeInOrder(posts[1..], ct);
      var rest := PostsOfType(posts[1..], ct);
      var r := PostsOfType(posts, ct);
      if posts[0].contentType == ct {
        assert r == [posts[0]] + rest;
        assert r[0] == posts[0] && r[1..] == rest;
        assert Seqs.IsSubsequence(r[1..], posts[1..]);
      } else {
        assert r == rest;
        assert Seqs.IsSubsequence(rest, posts[1..]);
      }
    }
  }

  /** A list that already has only posts of type `ct` is kept whole. */
  lemma {:induction false} PostsOfTypeKeepsMatching(posts: seq<Post>, ct: string)
    requires forall k :: 0 <= k < |posts| ==> posts[k].contentType == ct
    ensures PostsOfType(posts, ct) == posts
  {
    if posts != [] {
      PostsOfTypeKeepsMatching(posts[1..], ct);
      assert [posts[0]] + posts[1..] == posts;
    }
  }

  /** Choosing the same filter twice shows the same list as choosing it once. */
  lemma FilteredIdempotent(posts: seq<Post>, f: FilterType)
    ensures Filtered(Filtered(posts, f), f) == Filtered(posts, f)
  {
    if f != All {
      PostsOfTypeKeepsMatching(Filtered(posts, f), FilterValue(f));
    }
  }

  /** The list shows its posts in the order given. */
  lemma FilteredInOrder(posts: seq<Post>, f: FilterType)
    ensures Seqs.IsSubsequence(Filtered(posts, f), posts)
  {
    if f == All {
      SubsequenceOfItself(posts);
    } else {
      PostsOfTypeInOrder(posts, FilterValue(f));
    }
  }

  lemma {:induction false} SubsequenceOfItself(posts: seq<Post>)
    ensures Seqs.IsSubsequence(posts, posts)
  {
    if posts != [] {
      SubsequenceOfItself(posts[1..]);
    }
  }

  /** A filter chip: its value and its label text. */
  datatype Chip = Chip(value: FilterType, text: string)

  const Chips: seq<Chip> := [
    Chip(All, "All"),
    Chip(Strategy, "Strategy"),
    Chip(Technical, "Technical Deep Dive")
  ]

  /** Each chip but "All" carries the label its content type is shown with,
      and the chips are "All", then Strategy, then Technical. */
  lemma ChipLabelsMatchBadges()
    ensures forall k :: 0 <= k < |Chips| && Chips[k].value != All ==>
      Chips[k].text == FormatContentType(FilterValue(Chips[k].value))
    ensures |Chips| == 3 && Chips[0].value == All && Chips[1].value == Strategy && Chips[2].value == Technical
  {
  }

  /** The list's one piece of state: which chip is selected. */
  class FilterState {
    var activeFilter: FilterType

    /** The first render selects "All". */
    constructor ()
      ensures activeFilter == All
    {
      activeFilter := All;
    }

    /** Clicking a chip selects its value. */
    method ClickChip(chip: Chip)
      modifies this
      ensures activeFilter == chip.value
    {
      activeFilter := chip.value;
    }

    /** The posts currently shown. */
    function Visible(posts: seq<Post>): (r: seq<Post>)
      reads this
      ensures activeFilter == All ==> r == posts
      ensures |r| <= |posts|
    {
      Filtered(posts, activeFilter)
    }
  }
}
