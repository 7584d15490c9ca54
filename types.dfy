/** The records the engine consumes and produces (src/types.ts). */
module Types {
  import opened Wrappers

  /** An embedding vector; its arithmetic is outside the model. */
  type Vec = seq<real>

  /** One verse of the corpus; `themes` is an optional list of tags. */
  datatype Verse = Verse(
    id: string,
    ref: string,
    book: string,
    chapter: int,
    verse: int,
    text: string,
    themes: Option<seq<string>>)

  /** One suggestion returned to the caller. */
  datatype Suggestion = Suggestion(
    id: string,
    ref: string,
    text: string,
    translation: string,
    confidence: real,
    themes: Option<seq<string>>,
    reasons: seq<string>)
}
