/** The step- and flow-state guard around the pages of the signup and recovery
    flows. It compares the store's current step with the step(s) a page accepts,
    looks up flow-state flags by name, and either shows the page or redirects. */
module RouteGuard {
  import opened Navigation
  import opened AuthStore

  /** The six flow-state flags the guard reads, in the order it lists them. The
      store defines no selectors for them, so the model takes their values as
      inputs. */
  datatype FlowFlags = FlowFlags(
    signupInProgress: bool,
    securityQuestionsSubmitted: bool,
    signupEmailVerified: bool,
    passwordRecoveryInProgress: bool,
    securityVerified: bool,
    recoveryEmailVerified: bool)

  /** The six keys of the guard's `currentFlowStates` object. */
  const FlowStateNames: set<string> :=
    {"signupInProgress", "securityQuestionsSubmitted", "signupEmailVerified",
     "passwordRecoveryInProgress", "securityVerified", "recoveryEmailVerified"}

  /** Property names every plain object inherits from `Object.prototype`. Looking
      one of them up yields a function or an object, both truthy. */
  const InheritedNames: set<string> :=
    {"constructor", "hasOwnProperty", "isPrototypeOf", "propertyIsEnumerable",
     "toLocaleString", "toString", "valueOf", "__proto__",
     "__defineGetter__", "__defineSetter__", "__lookupGetter__", "__lookupSetter__"}

  /** Truthiness of `currentFlowStates[name]`: the flag for one of the six keys,
      truthy for an inherited property, and `undefined` (falsy) for any other name. */
  function FlagValue(flags: FlowFlags, name: string): (b: bool)
    ensures name !in FlowStateNames && name !in InheritedNames ==> !b
    ensures name in InheritedNames ==> b
  {
    if name == "signupInProgress" then flags.signupInProgress
    else if name == "securityQuestionsSubmitted" then flags.securityQuestionsSubmitted
    else if name == "signupEmailVerified" then flags.signupEmailVerified
    else if name == "passwordRecoveryInProgress" then flags.passwordRecoveryInProgress
    else if name == "securityVerified" then flags.securityVerified
    else if name == "recoveryEmailVerified" then flags.recoveryEmailVerified
    else name in InheritedNames
  }

  /** `names.some(state => currentFlowStates[state])` */
  function SomeFlag(flags: FlowFlags, names: seq<string>): (b: bool)
    ensures b <==> exists i :: 0 <= i < |names| && FlagValue(flags, names[i])
  {
    if names == [] then false
    else if FlagValue(flags, names[0]) then true
    else
      assert forall i :: 1 <= i < |names| ==> names[i] == names[1..][i - 1];
      SomeFlag(flags, names[1..])
  }

  /** `checkFlowState()` */
  function CheckFlowState(requiredFlowState: Prop<string>, allowedFlowStates: seq<string>, flags: FlowFlags): bool
  {
    if !IsTruthy(requiredFlowState) && |allowedFlowStates| == 0 then true
    else if IsTruthy(requiredFlowState) then FlagValue(flags, requiredFlowState.value)
    else SomeFlag(flags, allowedFlowStates)
  }

  /** `currentStep === requiredStep`, where the store's missing step is `null` and
      a left-out prop is `undefined`: strictly, the two are never equal. */
  predicate StrictlyEqual(currentStep: Nullable<string>, requiredStep: Prop<string>)
  {
    currentStep.Value? && requiredStep.Given? && currentStep.value == requiredStep.value
  }

  /** `isStepAllowed()` */
  function IsStepAllowed(requiredStep: Prop<string>, allowedSteps: seq<string>, currentStep: Nullable<string>): bool
  {
    if !IsTruthy(requiredStep) && |allowedSteps| == 0 then true
    else if currentStep.Value? && currentStep.value in allowedSteps then true
    else StrictlyEqual(currentStep, requiredStep)
  }

  /** The guard's props; list props left out take their default `[]`, and a
      left-out `requiredFlowState` its default `null`, which is falsy like it. */
  datatype GuardProps = GuardProps(
    requiredStep: Prop<string>,
    redirectTo: Prop<string>,
    allowedSteps: seq<string>,
    requiredFlowState: Prop<string>,
    allowedFlowStates: seq<string>)

  /** Reference definition of when the page is shown, stated on the inputs alone:
      with nothing required, always; otherwise the current step must be listed or
      be the required one (unless neither is asked for), and the required flag, or
      else some listed flag, must be set (unless neither is asked for). */
  ghost predicate Grants(p: GuardProps, currentStep: Nullable<string>, flags: FlowFlags)
  {
    (!IsTruthy(p.requiredStep) && !IsTruthy(p.requiredFlowState)) ||
    (((!IsTruthy(p.requiredStep) && p.allowedSteps == []) ||
      (currentStep.Value? &&
       (currentStep.value in p.allowedSteps ||
        (p.requiredStep.Given? && currentStep.value == p.requiredStep.value)))) &&
     (if IsTruthy(p.requiredFlowState) then FlagValue(flags, p.requiredFlowState.value)
      else (p.allowedFlowStates == [] ||
            exists i :: 0 <= i < |p.allowedFlowStates| && FlagValue(flags, p.allowedFlowStates[i]))))
  }

  /** The guard's decision: the page, or a redirect to `redirectTo` (default `/login`). */
  function Guard(p: GuardProps, currentStep: Nullable<string>, flags: FlowFlags): (d: Decision)
    ensures d == RenderChildren <==> Grants(p, currentStep, flags)
    ensures d != RenderChildren ==> d == Redirect(OrDefault(p.redirectTo, LoginPath))
  {
    if (!IsTruthy(p.requiredStep) && !IsTruthy(p.requiredFlowState)) ||
       (IsStepAllowed(p.requiredStep, p.allowedSteps, currentStep) &&
        CheckFlowState(p.requiredFlowState, p.allowedFlowStates, flags))
    then RenderChildren
    else Redirect(OrDefault(p.redirectTo, LoginPath))
  }

  // ---------------------------------------------------------------------------
  // Properties of the guard.

  /** With neither a required step nor a required flow state, the page is shown
      whatever the lists, the store's step and the flags say. */
  lemma NoRequirementGrants(p: GuardProps, currentStep: Nullable<string>, flags: FlowFlags)
    requires !IsTruthy(p.requiredStep) && !IsTruthy(p.requiredFlowState)
    ensures Guard(p, currentStep, flags) == RenderChildren
  {
  }

  /** `isStepAllowed` is vacuously true without a required step or allowed steps;
      otherwise it holds exactly when the store has a step that is listed or is
      the required one. */
  lemma StepAllowedMeaning(requiredStep: Prop<string>, allowedSteps: seq<string>, currentStep: Nullable<string>)
    ensures !IsTruthy(requiredStep) && allowedSteps == [] ==> IsStepAllowed(requiredStep, allowedSteps, currentStep)
    ensures IsTruthy(requiredStep) || allowedSteps != [] ==>
      (IsStepAllowed(requiredStep, allowedSteps, currentStep) <==>
        currentStep.Value? &&
        (currentStep.value in allowedSteps || (requiredStep.Given? && currentStep.value == requiredStep.value)))
  {
  }

  /** A store with no step never satisfies a step check that has something to
      check, not even when no step is required: `null` is not `undefined`. */
  lemma NullStepNeverAllowed(requiredStep: Prop<string>, allowedSteps: seq<string>)
    requires IsTruthy(requiredStep) || allowedSteps != []
    ensures !IsStepAllowed(requiredStep, allowedSteps, Null)
  {
  }

  /** A required flow state decides by itself: the allowed list is ignored, and a
      name that is neither a flag nor inherited denies. */
  lemma RequiredFlowStateDecides(requiredFlowState: Prop<string>, allowed1: seq<string>, allowed2: seq<string>, flags: FlowFlags)
    requires IsTruthy(requiredFlowState)
    ensures CheckFlowState(requiredFlowState, allowed1, flags) == FlagValue(flags, requiredFlowState.value)
    ensures CheckFlowState(requiredFlowState, allowed1, flags) == CheckFlowState(requiredFlowState, allowed2, flags)
    ensures requiredFlowState.value !in FlowStateNames && requiredFlowState.value !in InheritedNames ==>
      !CheckFlowState(requiredFlowState, allowed1, flags)
  {
  }

  /** Without a required flow state, the check passes when no flow state is listed
      and otherwise exactly when some listed flag is set. */
  lemma AllowedFlowStatesMeaning(requiredFlowState: Prop<string>, allowed: seq<string>, flags: FlowFlags)
    requires !IsTruthy(requiredFlowState)
    ensures allowed == [] ==> CheckFlowState(requiredFlowState, allowed, flags)
    ensures allowed != [] ==>
      (CheckFlowState(requiredFlowState, allowed, flags) <==>
        exists i :: 0 <= i < |allowed| && FlagValue(flags, allowed[i]))
  {
  }

  /** Each of the six names reads its own flag. */
  lemma FlowStateNamesReadTheirFlags(flags: FlowFlags)
    ensures FlagValue(flags, "signupInProgress") == flags.signupInProgress
    ensures FlagValue(flags, "securityQuestionsSubmitted") == flags.securityQuestionsSubmitted
    ensures FlagValue(flags, "signupEmailVerified") == flags.signupEmailVerified
    ensures FlagValue(flags, "passwordRecoveryInProgress") == flags.passwordRecoveryInProgress
    ensures FlagValue(flags, "securityVerified") == flags.securityVerified
    ensures FlagValue(flags, "recoveryEmailVerified") == flags.recoveryEmailVerified
  {
  }

  /** An inherited property name passes the flow check even with every flag clear:
      a guard that requires, say, `toString` admits anyone whose step it allows. */
  lemma InheritedNamePassesFlowCheck(name: string, allowed: seq<string>, currentStep: Nullable<string>, flags: FlowFlags)
    requires name in InheritedNames
    ensures CheckFlowState(Given(name), allowed, flags)
    ensures Guard(GuardProps(Absent, Absent, [], Given(name), []), currentStep, flags) == RenderChildren
  {
  }

  /** A denied visitor goes to `redirectTo`, or to `/login` when it is left out. */
  lemma DenialRedirects(p: GuardProps, currentStep: Nullable<string>, flags: FlowFlags)
    requires !Grants(p, currentStep, flags)
    ensures p.redirectTo == Absent ==> Guard(p, currentStep, flags) == Redirect("/login")
    ensures p.redirectTo.Given? ==> Guard(p, currentStep, flags) == Redirect(p.redirectTo.value)
  {
  }
}
