/**
 * The pieces of the rename engine that run in code this model cannot see:
 * the regular-expression engines (JavaScript `RegExp` in the front end, the
 * Rust `regex` crate in the backend) and Unicode NFKC normalization.  Each is
 * an uninterpreted function handed in by the caller.
 */
module Foreign {
  import opened Wrappers

  /**
   * A regular-expression engine.  `compileError(p)` is `Some(message)` when the
   * pattern `p` is rejected by the engine and `None` when it compiles;
   * `replaceAll(p, r, s)` replaces every match of `p` in `s` by the replacement
   * template `r` (`$n` back-references and all) and cannot fail once `p` compiles.
   */
  datatype RegexEngine = RegexEngine(
    compileError: string -> Option<string>,
    replaceAll: (string, string, string) -> string)
  {
    predicate Compiles(pattern: string) {
      compileError(pattern).None?
    }
  }

  /** Unicode compatibility normalization (NFKC, Unicode Standard Annex #15). */
  type Nfkc = string -> string
}
