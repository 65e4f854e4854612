/** Bidirectional classes and what one character of a text carries
    (lib/ufont/tools/bidi.py). */
module BidiTypes {
  datatype Class =
    | L | R | AL | EN | ES | ET | AN | CS | NSM | BN | B | S | WS | ON
    | LRE | LRO | RLE | RLO | PDF | LRI | RLI | FSI | PDI

  const MAX_DEPTH: nat := 125

  predicate Isolate(c: Class) { c == LRI || c == RLI || c == FSI }

  predicate Embedding(c: Class) { c == RLE || c == LRE || c == RLO || c == LRO }

  /** What rule X9 takes out. */
  predicate Removed(c: Class) { Embedding(c) || c == PDF || c == BN }

  predicate Neutral(c: Class) {
    c == B || c == S || c == WS || c == ON || Isolate(c) || c == PDI
  }

}
