/** The C text conventions that the AT channel and the tokenizer share. */
module CText {

  datatype Option<+T> = None | Some(value: T)

  /** The SMS prompt of 3GPP TS 27.005, section 4.3. */
  const PROMPT := "> "

  predicate NulFree(s: string) {
    '\0' !in s
  }

  /** strStartsWith of misc.c: a prefix test that never looks past either NUL. */
  predicate StartsWith(line: string, prefix: string) {
    prefix <= line
  }
}
