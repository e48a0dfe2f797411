/** Option and Result types shared by every module, and the errors the plugin raises. */
module Wrappers {

  datatype Option<+T> = None | Some(value: T)

  /** The exceptions the modelled code throws, one constructor per error site. */
  datatype Error =
    | InvalidSourceMap                 // a source-map lookup returned a null line or column
    | InvalidInlineSourceMap           // an existing map without code or without a map
    | MissingSourcesContent            // an existing map without `sourcesContent[0]`
    | UnsupportedSyntax(message: string)
    | NotIncluded(input: string, cacheKey: string)  // "Module … is not included in the tsconfig project: …"
    | AbsentNode                       // a `!` assertion on an absent node (`node.name!`, `arguments[0]!`)
    | DepthExhausted                   // the project-reference recursion ran out of stack

  datatype Result<+T> = Ok(value: T) | Err(error: Error) {
    predicate IsFailure() { Err? }

    function PropagateFailure<U>(): Result<U>
      requires Err?
    {
      Err(error)
    }

    function Extract(): T
      requires Ok?
    {
      value
    }
  }
}
