/** The content directory as the site's loaders see it once the file system
    and the front-matter parser have done their work: each `.mdx` file name
    maps to its parsed header and body, or to a failure. */
module Content {
  import opened Wrappers

  /** An element of a front-matter list: a string, or a value of any other
      type (number, date, nested list, null). */
  datatype Scalar = Text(text: string) | NonText

  /** A front-matter `tags` value: a list, a string, or anything else
      (missing, null, a number, ...). */
  datatype TagsValue = TagList(items: seq<Scalar>) | TagStr(s: string) | TagOther

  /** The fields of a parsed header the loaders read. A field is `None` when it
      is missing or not a string. `dateKey` stands for `new Date(date)`: the
      value posts are compared by. */
  datatype FrontMatter = FrontMatter(
    title: Option<string>,
    date: Option<string>,
    dateKey: int,
    description: Option<string>,
    heroImage: Option<string>,
    tags: TagsValue)

  /** A parsed file: its header and the reading-time text computed from its
      body by the reading-time library. */
  datatype PostFile = PostFile(data: FrontMatter, readingTime: string)

  /** File name to parsed file. A name that is not a key is a file that does
      not exist; `None` is a file whose read or parse threw. */
  type Directory = map<string, Option<PostFile>>

  /** Reading and parsing one file: `None` exactly when that throws. */
  function ReadFile(dir: Directory, fileName: string): (r: Option<PostFile>)
    ensures r.Some? <==> fileName in dir && dir[fileName].Some?
    ensures r.Some? ==> dir[fileName] == r
  {
    if fileName in dir then dir[fileName] else None
  }
}
