/** `replay/bind.py`: value references become values at the last moment. */
module Bind {
  import opened Outcomes
  import opened Capabilities

  /** A missing reference ends the run with a result; a configured resolver that
      does not know the secret raises out of it. */
  datatype BindError = Unbound | SecretNotFound

  type Secrets = Option<string -> Option<string>>

  function ResolveValue(value: ValueExpr, inputs: Bindings, outputs: Bindings, secrets: Secrets)
    : Result<string, BindError>
  {
    match value
    case Literal(text) => Ok(text)
    case InputRef(name) => if name in inputs then Ok(inputs[name]) else Err(Unbound)
    case OutputRef(name) => if name in outputs then Ok(outputs[name]) else Err(Unbound)
    case SecretRef(name) =>
      if secrets.None? then Err(Unbound)
      else
        var found := (secrets.value)(name);
        if found.None? then Err(SecretNotFound) else Ok(found.value)
  }

  /** A copy of the action with its value reference resolved. */
  function BindAction(action: Action, inputs: Bindings, outputs: Bindings, secrets: Secrets): Result<Action,
                      BindError> {
    if !(action.Type? || action.Select?) then Ok(action)
    else
      match ResolveValue(action.value, inputs, outputs, secrets)
      case Err(e) => Err(e)
      case Ok(text) => Ok(action.(value := Literal(text)))
  }
}
