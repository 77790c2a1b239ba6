/**
 * The input both indexers consume: a directory listing in listing order,
 * each entry carrying what reading and parsing its file produced. Reading
 * the directory and the files, and `JSON.parse`, are not modelled; their
 * outcome is part of the entry.
 */
module Listing {
  import opened JsonValues
  import opened Strings

  datatype Content =
    | Blank          // the text is empty or only whitespace (`!content.trim()`)
    | Unreadable     // `readFileSync` or `JSON.parse` threw
    | Parsed(data: Json)

  datatype Entry = Entry(name: string, content: Content)

  const JsonSuffix: string := ".json"

  /** `file.endsWith('.json')`: the only entries either indexer looks at. */
  predicate IsJsonFile(e: Entry) {
    EndsWith(e.name, JsonSuffix)
  }
}
