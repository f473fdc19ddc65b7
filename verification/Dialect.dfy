/** What the SQL library decides: function values the model takes as they come. */
module Dialect {
  import opened Bytes
  import opened Wrappers

  datatype Verb = Select | Insert | OtherVerb

  /** A parsed INSERT: the table and column it names, and what is to be stored there. */
  datatype Insertion = Insertion(table: string, column: string, stored: bytes)

  datatype Dialect = Dialect(
    quote: bytes -> string,
    bytesOf: string -> Option<bytes>,
    verbOf: string -> Verb,
    parseInsert: string -> Option<Insertion>)
  {
    /** The binary literal is read back as the bytes it was written for. */
    ghost predicate Inverse() {
      forall b :: bytesOf(quote(b)) == Some(b)
    }
  }
}
