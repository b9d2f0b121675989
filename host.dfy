/**
 * What the services take from their surroundings: the outcome shapes of
 * calls that can fail, the operations of the JavaScript host and of the
 * libraries the field types call (kept abstract), and the configuration
 * constants the field service imports.
 */
module Host {
  import opened Json

  datatype Option<T> = None | Some(value: T)

  /** The outcome of a call that either returns or throws. */
  datatype Reply<T> = Return(value: T) | Throw

  /**
   * Foreign operations, passed in as functions:
   * `datePattern`/`timePattern` are `DATE_PATTERN.test`/`TIME_PATTERN.test`
   * of the value-format library, `canParseUrl` is `URL.canParse` (section 4.4
   * of the WHATWG URL Standard), `regexTest(p, s)` is `new RegExp(p).test(s)`,
   * `lower` is `String.prototype.toLowerCase` and `numberText` the text of a
   * finite number.
   */
  datatype Env = Env(
    datePattern: string -> bool,
    timePattern: string -> bool,
    canParseUrl: string -> bool,
    regexCompiles: string -> bool,
    regexTest: (string, string) -> bool,
    lower: string -> string,
    numberText: real -> string)

  /**
   * `FIELD_NAME_PATTERN` and the `FIELD_POSITION_*` constants: the position
   * of the i-th field (from 0) is `start + (i + 1) * step`, and a move shifts
   * a field by `step + move`.
   */
  datatype Config = Config(fieldNamePattern: string -> bool, start: int, step: int, move: int)

  type Positions = c: Config | c.step > 0 witness Config(_ => true, 0, 1, 0)
}
