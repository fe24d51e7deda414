/** What a route wrapper decides to do: show the page it wraps, or send the
    browser elsewhere (`<Navigate to={path} replace />`). Only the decision is
    modelled, not the rendering. */
module Navigation {

  datatype Decision = RenderChildren | Redirect(path: string)

  /** A component prop the caller may leave out; a left-out prop is `undefined`,
      and a destructuring default applies to it. */
  datatype Prop<T> = Absent | Given(value: T)

  /** The value of a prop, or its destructuring default when it is left out. */
  function OrDefault<T>(p: Prop<T>, default: T): T
  {
    match p
    case Absent => default
    case Given(v) => v
  }

  /** JavaScript truthiness of a string prop: left out, or the empty string, is falsy. */
  predicate IsTruthy(p: Prop<string>)
  {
    p.Given? && p.value != ""
  }

  /** The default of `redirectTo` in both wrappers. */
  const LoginPath: string := "/login"
}
