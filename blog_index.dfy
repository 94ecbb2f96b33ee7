/** The blog index: the `.mdx` files of the content directory whose front
    matter carries a string title, date and description, newest first. */
module BlogIndex {
  import opened Wrappers
  import opened JsString
  import opened Content
  import Seqs

  /** One listed post. `dateKey` is the value its `date` parses to. */
  datatype PostMetadata = PostMetadata(
    slug: string,
    title: string,
    date: string,
    description: string,
    readingTime: string,
    dateKey: int)

  predicate IsMdx(fileName: string) {
    EndsWith(fileName, ".mdx")
  }

  /** The listing's names that end in `.mdx`, in listing order; which names
      survive, and how often, is `MdxFileNamesCount`. */
  function MdxFileNames(fileNames: seq<string>): (r: seq<string>)
    ensures |r| <= |fileNames|
  {
    if fileNames == [] then []
    else
      (if IsMdx(fileNames[0]) then [fileNames[0]] else []) + MdxFileNames(fileNames[1..])
  }

  /** The filter keeps every `.mdx` name as often as it occurs. */
  lemma {:induction false} MdxFileNamesCount(fileNames: seq<string>, f: string)
    ensures multiset(MdxFileNames(fileNames))[f] == if IsMdx(f) then multiset(fileNames)[f] else 0
  {
    if fileNames != [] {
      var first, rest := fileNames[0], fileNames[1..];
      MdxFileNamesCount(rest, f);
      assert fileNames == [first] + rest;
      assert multiset(fileNames) == multiset([first]) + multiset(rest);
      assert MdxFileNames(fileNames) == (if IsMdx(first) then [first] else []) + MdxFileNames(rest);
    }
  }

  /** The filter keeps the directory order. */
  lemma {:induction false} MdxFileNamesInOrder(fileNames: seq<string>)
    ensures Seqs.IsSubsequence(MdxFileNames(fileNames), fileNames)
  {
    if fileNames != [] {
      MdxFileNamesInOrder(fileNames[1..]);
      var rest := MdxFileNames(fileNames[1..]);
      if IsMdx(fileNames[0]) {
        var r := MdxFileNames(fileNames);
        assert r == [fileNames[0]] + rest;
        assert r[0] == fileNames[0] && r[1..] == rest;
        assert Seqs.IsSubsequence(r[1..], fileNames[1..]);
      } else {
        assert MdxFileNames(fileNames) == rest;
        assert Seqs.IsSubsequence(rest, fileNames[1..]);
      }
    }
  }

  lemma {:induction false} MdxFileNamesConcat(a: seq<string>, b: seq<string>)
    ensures MdxFileNames(a + b) == MdxFileNames(a) + MdxFileNames(b)
  {
    if a != [] {
      assert (a + b)[0] == a[0];
      assert (a + b)[1..] == a[1..] + b;
      MdxFileNamesConcat(a[1..], b);
    } else {
      assert a + b == b;
    }
  }

  /** The post's slug: its file name with one trailing `.mdx` removed. */
  function StripMdx(fileName: string): (slug: string)
    ensures IsMdx(fileName) ==> slug + ".mdx" == fileName
    ensures !IsMdx(fileName) ==> slug == fileName
  {
    if IsMdx(fileName) then fileName[..|fileName| - 4] else fileName
  }

  /** The metadata of one file, or `None` when reading or parsing it throws
      or when its title, date or description is not a string. The fields are
      copied unchanged. */
  function ReadPostMetadata(dir: Directory, fileName: string): (r: Option<PostMetadata>)
    ensures r.Some? <==>
      ReadFile(dir, fileName).Some? &&
      ReadFile(dir, fileName).value.data.title.Some? &&
      ReadFile(dir, fileName).value.data.date.Some? &&
      ReadFile(dir, fileName).value.data.description.Some?
    ensures r.Some? ==>
      var file := ReadFile(dir, fileName).value;
      r.value == PostMetadata(StripMdx(fileName), file.data.title.value, file.data.date.value,
                              file.data.description.value, file.readingTime, file.data.dateKey)
  {
    match ReadFile(dir, fileName)
    case None => None
    case Some(file) =>
      var data := file.data;
      if data.title.None? || data.date.None? || data.description.None? then None
      else Some(PostMetadata(StripMdx(fileName), data.title.value, data.date.value,
                             data.description.value, file.readingTime, data.dateKey))
  }

  /** `allPostsData`: each `.mdx` name mapped to its metadata or a failure. */
  function AllPostsData(mdxNames: seq<string>, dir: Directory): (r: seq<Option<PostMetadata>>)
    ensures |r| == |mdxNames|
    ensures forall i :: 0 <= i < |mdxNames| ==> r[i] == ReadPostMetadata(dir, mdxNames[i])
  {
    seq(|mdxNames|, i requires 0 <= i < |mdxNames| => ReadPostMetadata(dir, mdxNames[i]))
  }

  /** `validPosts`: the posts that were read and validated, in directory order. */
  function ValidPosts(fileNames: seq<string>, dir: Directory): (r: seq<PostMetadata>)
    ensures |r| <= |fileNames|
  {
    Seqs.Somes(AllPostsData(MdxFileNames(fileNames), dir))
  }

  /** A post is listed exactly when it comes from a listed `.mdx` file that reads
      and validates; its slug plus `.mdx` is that file's name. */
  lemma ValidPostsExactly(fileNames: seq<string>, dir: Directory, p: PostMetadata)
    ensures p in ValidPosts(fileNames, dir) <==>
      exists f :: f in fileNames && IsMdx(f) && ReadPostMetadata(dir, f) == Some(p)
    ensures p in ValidPosts(fileNames, dir) ==> p.slug + ".mdx" in fileNames
  {
    var names := MdxFileNames(fileNames);
    var data := AllPostsData(names, dir);
    if p in ValidPosts(fileNames, dir) {
      var k :| 0 <= k < |ValidPosts(fileNames, dir)| && ValidPosts(fileNames, dir)[k] == p;
      assert Some(p) in data;
      var i :| 0 <= i < |data| && data[i] == Some(p);
      MdxFileNamesCount(fileNames, names[i]);
      assert names[i] in multiset(names);
      assert p.slug == StripMdx(names[i]);
    }
    if f :| f in fileNames && IsMdx(f) && ReadPostMetadata(dir, f) == Some(p) {
      MdxFileNamesCount(fileNames, f);
      assert f in multiset(fileNames);
      assert f in names;
      var i :| 0 <= i < |names| && names[i] == f;
      assert data[i] == Some(p);
      Seqs.SomesKeeps(data, i);
    }
  }

  lemma ValidPostsConcat(a: seq<string>, b: seq<string>, dir: Directory)
    ensures ValidPosts(a + b, dir) == ValidPosts(a, dir) + ValidPosts(b, dir)
  {
    MdxFileNamesConcat(a, b);
    var na, nb := MdxFileNames(a), MdxFileNames(b);
    assert AllPostsData(na + nb, dir) == AllPostsData(na, dir) + AllPostsData(nb, dir);
    Seqs.SomesConcat(AllPostsData(na, dir), AllPostsData(nb, dir));
  }

  /** What a single file contributes: its post when it is a valid `.mdx`
      file, nothing otherwise. */
  lemma ValidPostsSingle(f: string, dir: Directory)
    ensures ValidPosts([f], dir) ==
      if IsMdx(f) && ReadPostMetadata(dir, f).Some? then [ReadPostMetadata(dir, f).value] else []
  {
    assert [f][1..] == [];
    if IsMdx(f) {
      assert MdxFileNames([f]) == [f];
      var single := AllPostsData([f], dir);
      assert single == [ReadPostMetadata(dir, f)];
      assert single[1..] == [];
    } else {
      assert MdxFileNames([f]) == [];
    }
  }

  /** One file's fate is its own: a file that is not `.mdx`, cannot be read or
      fails validation contributes nothing and leaves every other post where
      it was; a valid `.mdx` file contributes its post at its place. */
  lemma OneFile(before: seq<string>, f: string, after: seq<string>, dir: Directory)
    ensures !IsMdx(f) || ReadPostMetadata(dir, f).None? ==>
      ValidPosts(before + [f] + after, dir) == ValidPosts(before + after, dir)
    ensures IsMdx(f) && ReadPostMetadata(dir, f).Some? ==>
      ValidPosts(before + [f] + after, dir) ==
      ValidPosts(before, dir) + [ReadPostMetadata(dir, f).value] + ValidPosts(after, dir)
  {
    var vb, vf, va := ValidPosts(before, dir), ValidPosts([f], dir), ValidPosts(after, dir);
    ValidPostsConcat(before + [f], after, dir);
    ValidPostsConcat(before, [f], dir);
    ValidPostsConcat(before, after, dir);
    ValidPostsSingle(f, dir);
    assert ValidPosts(before + [f] + after, dir) == vb + vf + va;
    assert ValidPosts(before + after, dir) == vb + va;
    if vf == [] {
      assert vb + vf + va == vb + va;
    }
  }

  /** Non-increasing by parsed date. */
  predicate NewestFirst(posts: seq<PostMetadata>) {
    forall i, j :: 0 <= i < j < |posts| ==> posts[i].dateKey >= posts[j].dateKey
  }

  /** The in-place sort of the valid posts by descending date: an insertion
      sort that moves a post before its neighbour exactly when the comparator
      puts the neighbour later, that is when the neighbour's date is older. */
  method SortNewestFirst(a: array<PostMetadata>)
    modifies a
    ensures NewestFirst(a[..])
    ensures multiset(a[..]) == multiset(old(a[..]))
  {
    var i := 0;
    while i < a.Length
      invariant 0 <= i <= a.Length
      invariant forall k, l :: 0 <= k < l < i ==> a[k].dateKey >= a[l].dateKey
      invariant multiset(a[..]) == multiset(old(a[..]))
    {
      var j := i;
      while j > 0 && a[j - 1].dateKey < a[j].dateKey
        invariant 0 <= j <= i
        invariant multiset(a[..]) == multiset(old(a[..]))
        invariant forall k, l :: 0 <= k < l <= i && l != j ==> a[k].dateKey >= a[l].dateKey
        invariant 0 < j < i ==> a[j - 1].dateKey >= a[j + 1].dateKey
      {
        Swap(a, j - 1, j);
        j := j - 1;
      }
      i := i + 1;
    }
  }

  method Swap(a: array<PostMetadata>, i: nat, j: nat)
    requires i < j < a.Length
    modifies a
    ensures a[i] == old(a[j]) && a[j] == old(a[i])
    ensures forall k :: 0 <= k < a.Length && k != i && k != j ==> a[k] == old(a[k])
    ensures multiset(a[..]) == multiset(old(a[..]))
  {
    a[i], a[j] := a[j], a[i];
  }

  /** `getAllPostsMetadata`: the valid posts, newest first. Ties are left in
      whatever order the sort produces. */
  method GetAllPostsMetadata(fileNames: seq<string>, dir: Directory) returns (posts: seq<PostMetadata>)
    ensures multiset(posts) == multiset(ValidPosts(fileNames, dir))
    ensures NewestFirst(posts)
  {
    var valid := ValidPosts(fileNames, dir);
    var a := new PostMetadata[|valid|](i requires 0 <= i < |valid| => valid[i]);
    assert a[..] == valid;
    SortNewestFirst(a);
    posts := a[..];
  }
}
