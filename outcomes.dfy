/** The generator's failures and the result type that carries them. */
module Outcomes {
  import opened Paths

  datatype Option<T> = None | Some(value: T)

  /** The four ways a run can fail. */
  datatype Error =
    | ArgumentError      // no component name was given
    | Collision(path: Path)   // something already exists at the destination
    | RenderError(key: string)  // a placeholder names a key the context lacks
    | IOError(path: Path)     // the directory or file could not be created

  datatype Result<T> = Ok(value: T) | Err(error: Error)

  const NoNameMessage: string := "Component name must be passed as an argument."

  const CollisionPrefix: string := "A file already exists at path \""

  /** The text shown to the user for a failure. A collision quotes the
      destination, joined with `/`. */
  function Message(e: Error): (m: string)
    ensures e.ArgumentError? ==> m == NoNameMessage
    ensures e.Collision? ==>
              |m| == |CollisionPrefix| + |Join(e.path)| + 2 &&
              m[..|CollisionPrefix|] == CollisionPrefix && m[|m| - 2..] == "\"." &&
              m[|CollisionPrefix|..|m| - 2] == Join(e.path)
  {
    match e
    case ArgumentError => NoNameMessage
    case Collision(p) => CollisionPrefix + Join(p) + "\"."
    case RenderError(k) => k + " is not defined"
    case IOError(p) => "Could not write \"" + Join(p) + "\"."
  }
}
