/** Shared vocabulary of the Eina JSON model: value handles, value types,
    error kinds, the tokens the lexer hands to the syntax machine, and the
    records the parser keeps about the values it announces. */
module JsonTypes {

  datatype Option<T> = None | Some(value: T)

  /** A reference to a value node in the value store; `Nil` plays NULL. */
  type Handle = nat

  const Nil: Handle := 0

  /** Eina_Json_Type, in the order of the public header (NULL is 0). */
  datatype JsonType = TNull | TNumber | TString | TBoolean | TPair | TObject | TArray

  /** Eina_Json_Error: none, lexical, syntax, data past the end of the root. */
  datatype JsonError = NoError | LexError | SyntaxError | PastEnd

  /** Eina_Json_Token: the five lexeme tokens and the six structural characters. */
  datatype Token =
    | TokString | TokNumber | TokTrue | TokFalse | TokNull
    | ObjOpen | ObjClose | ArrOpen | ArrClose | Comma | Colon

  /** One entry of the parser's parent stack: the saved parent type and handle. */
  datatype Frame = Frame(kind: JsonType, handle: Handle)

  /** One invocation of the parser callback: type, parent and glue text. */
  datatype Call = Call(kind: JsonType, parent: Handle, text: string)

  predicate IsDigit(c: char)
  {
    '0' <= c <= '9'
  }
}
