/** Outcomes of the analysis. Every error of the source ends the run
    (`sys.exit` after a message, or an uncaught Python exception); here
    each becomes a value that names what went wrong. */
module Errors {

  datatype Option<T> = None | Some(value: T)

  datatype Error =
      /** A tree line without a constraint or a children column (`row[1]`, `row[2]` raise IndexError). */
    | MissingColumn(row: seq<string>)
      /** A tree line whose constraint is not mandatory, optional, or, alternative in any case. */
    | BadRelationship(row: seq<string>)
      /** A mapping line that does not split into exactly two sides around `-ACTIVATES-`. */
    | BadMappingLine(sides: seq<seq<string>>)
      /** A name on the `kind` side of a mapping line that no tree declares. */
    | Undefined(kind: string, name: string)
      /** The depth walk nested deeper than the interpreter's recursion limit. */
    | RecursionLimit

  datatype Result<T> = Ok(value: T) | Err(error: Error)

  datatype Outcome = Done | Fail(error: Error)
}
