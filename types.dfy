/**
 * The data shapes of the rename engine (src/types/index.ts).  Optional
 * TypeScript fields are `Option`s; the engine tests them for JavaScript
 * truthiness, so an empty id counts as absent.
 */
module Types {
  import opened Wrappers

  /** A library regex rule.  Name, sample and tags play no part in renaming. */
  datatype RegexDef = RegexDef(id: string, pattern: string, replacement: string)

  /** The seven independent normalization toggles. */
  datatype NormalizationOptions = NormalizationOptions(
    space: bool,
    waveDash: bool,
    dash: bool,
    middleDot: bool,
    brackets: bool,
    colon: bool,
    slash: bool)

  /**
   * One configured step.  The source type is a record of optional fields, not a
   * closed variant: several of them may be set at once, and the resolver decides
   * by precedence (normalize, then regexId, then groupRefId).
   */
  datatype Step = Step(
    regexId: Option<string>,
    groupRefId: Option<string>,
    normalize: Option<bool>,
    enabled: Option<bool>)

  datatype Group = Group(id: string, name: string, steps: seq<Step>)

  /** A flattened step: the only two operations the rename fold understands. */
  datatype RenameStep = Regex(pattern: string, replacement: string) | Normalize

  /** One per-file outcome, as the backend reports it. */
  datatype RenameResult = RenameResult(
    success: bool,
    oldName: string,
    newName: Option<string>,
    error: Option<string>)

  /** JavaScript truthiness of an optional string: present and non-empty. */
  predicate Truthy(o: Option<string>) {
    o.Some? && o.value != ""
  }

  /** `step.enabled === false`: only an explicit `false` disables a step. */
  predicate Disabled(s: Step) {
    s.enabled == Some(false)
  }

  /** `step.normalize` is truthy. */
  predicate WantsNormalize(s: Step) {
    s.normalize == Some(true)
  }
}
