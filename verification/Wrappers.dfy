/** Failure-compatible wrappers and the error taxonomy of the site generator.
    Every `throw` of the generator becomes an `Err`, and every `null` the
    generator hands back as a non-error becomes `None`. */
module Wrappers {

  datatype Option<+T> = None | Some(value: T)

  /** Everything the generator can throw while building paths and tags and
      while rendering widgets, dependencies and pages. */
  datatype Error =
    | InvalidPath            // a directory segment is "", ".", "..", or holds '?' or '#'
    | MaskedPathMisuse       // abs/plus/from/familyDirs/linkWouldBeRedundant called on a MaskedPath
    | NotADirectory          // plus on a path whose file part is not ""
    | NotAPath               // plus with a child that is not a plain path
    | UnparseablePath        // toPath gave null and the caller went on to use it
    | BadTagName             // HtmlTag name outside [-:a-z][-:a-z0-9]*
    | BadAttrName            // HtmlTag attribute name outside [-:a-z]*
    | DuplicateAttr          // two attributes of one HtmlTag share a name
    | Unsupported(variant: string, operation: string)  // no rule of the rulebook applied
    | UnknownPage            // a NameNavLink to a page missing from the registry
    | NameCycle              // page names that refer to each other without end
    | TokenStackEmpty        // a WidgetToken rendered outside any NiceWidget
    | StateUnderflow         // unpushState on an empty token stack
    | InvalidEmbeddedCode    // embedded code holding '<' spaces* ('/' | '!')
    | InvalidDependency      // a dependency kind the renderer does not know
    | UndefinedDependency    // an `undefined` in a dependency list: reading its fields is a TypeError
    | UnknownBundle          // an include-once identity with no list in the bundle table
    | PageRenderFailed       // some page of the registry failed to render

  datatype Result<+T> = Ok(value: T) | Err(error: Error) {

    predicate IsFailure() {
      Err?
    }

    function PropagateFailure<U>(): Result<U>
      requires Err?
    {
      Err(error)
    }

    function Extract(): T
      requires Ok?
    {
      value
    }
  }

  /** Two pieces of text computed one after the other and joined: the first
      failure, or both texts in order. */
  function Joined(x: Result<string>, y: Result<string>): (r: Result<string>)
    ensures r.Ok? <==> x.Ok? && y.Ok?
    ensures r.Ok? ==> r.value == x.value + y.value
  {
    if x.Err? then x else if y.Err? then y else Ok(x.value + y.value)
  }
}
