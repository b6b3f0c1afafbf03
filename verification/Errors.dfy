/** Error codes of the parser, and the result and option types. */
module Errors {
  datatype Error =
    | NoElements | InvalidToken | UnclosedToken | PartialChar | TagMismatch | DuplicateAttribute
    | UndefinedEntity | RecursiveEntityRef | AsyncEntity | BadCharRef | BinaryEntityRef
    | AttributeExternalEntityRef | MisplacedXmlPi | UnclosedCdataSection | UnexpectedState
    | EntityDeclaredInPe | UnboundPrefix | UndeclaringPrefix
    | ReservedPrefixXml | ReservedPrefixXmlns | ReservedNamespaceUri | SyntaxError | ParamEntityRefError | Finished

  datatype Option<+T> = None | Some(value: T)

  datatype Result<+T> = Ok(value: T) | Err(error: Error)
}
