/** Layered configuration (FancyConfig.swift): each option's value comes from
    a manual setting, else the environment, else the repository's git config,
    else its default, and the option reports which layer supplied it. The
    environment, the git config table, the program's namespaces and
    Foundation's number and boolean parsing are parameters. */
module FancyConfig {
  import opened Optional

  /** A typed, possibly absent, configuration value. */
  datatype Value = StringValue(s: Option<string>) | DoubleValue(d: Option<real>) | BoolValue(b: Option<bool>)

  /** The layer a value came from. */
  datatype Source = Manual | Environment | GitConfig | Default

  /** The text shown for a value: the payload's text, or `<NOT SET>` when it
      is absent. Formatting a double is a parameter. */
  function Description(v: Value, showReal: real -> string): (r: string)
    ensures v.StringValue? && v.s.Some? ==> r == v.s.value
    ensures v.DoubleValue? && v.d.Some? ==> r == showReal(v.d.value)
    ensures v.BoolValue? && v.b.Some? ==> r == (if v.b.value then "true" else "false")
    ensures IsNotSet(v) ==> r == "<NOT SET>"
  {
    match v
    case StringValue(Some(x)) => x
    case DoubleValue(Some(x)) => showReal(x)
    case BoolValue(Some(x)) => if x then "true" else "false"
    case _ => "<NOT SET>"
  }

  predicate IsNotSet(v: Value) {
    match v
    case StringValue(x) => x.None?
    case DoubleValue(x) => x.None?
    case BoolValue(x) => x.None?
  }

  /** A present payload is shown as `<NOT SET>` only if it is that very text. */
  lemma DescriptionNotSetExactly(v: Value, showReal: real -> string)
    requires !v.StringValue? || v.s != Some("<NOT SET>")
    requires !v.DoubleValue? || v.d.None? || showReal(v.d.value) != "<NOT SET>"
    ensures Description(v, showReal) == "<NOT SET>" <==> IsNotSet(v)
  {
  }

  /** The short label shown in the `Source` column. */
  function SourceDescription(src: Source): (r: string)
    ensures 0 < |r| <= 8
    ensures src == GitConfig ==> r == "Config"
    ensures src == Environment ==> r == "Environ"
    ensures src == Manual ==> r == "Manual"
    ensures src == Default ==> r == "Default"
  {
    match src
    case Manual => "Manual"
    case Environment => "Environ"
    case GitConfig => "Config"
    case Default => "Default"
  }

  /** Where an option looks for its value. */
  datatype Context = Context(
    namespace: string,
    section: string,
    environment: map<string, string>,
    gitConfig: map<string, string>,
    parseNumber: string -> Option<real>,
    parseBool: string -> bool)

  /** One configuration option. The default's variant fixes the option's
      type; the manual value is the one set at run time, if any. */
  datatype ConfigOption = ConfigOption(
    key: string,
    description: string,
    envVarStub: Option<string>,
    defaultValue: Value,
    manualValue: Option<Value>)

  /** `a` and `b` hold the same type of payload. */
  predicate SameVariant(a: Value, b: Value) {
    (a.StringValue? && b.StringValue?) || (a.DoubleValue? && b.DoubleValue?) || (a.BoolValue? && b.BoolValue?)
  }

  /** The environment variable that configures the option: the namespace, an
      underscore and the stub, or none when the option has no stub. */
  function EnvironmentVariable(opt: ConfigOption, namespace: string): (r: Option<string>)
    ensures r.None? <==> opt.envVarStub.None?
    ensures r.Some? ==> (|r.value| == |namespace| + 1 + |opt.envVarStub.value|
      && r.value[..|namespace|] == namespace && r.value[|namespace|] == '_'
      && r.value[|namespace| + 1..] == opt.envVarStub.value)
  {
    match opt.envVarStub
    case Some(stub) => Some(namespace + "_" + stub)
    case None => None
  }

  /** The key the option has in git config: the section, a dot, the key. */
  function QualifiedKey(opt: ConfigOption, section: string): string {
    section + "." + opt.key
  }

  /** Converts raw text to a value of the default's type. An absent or
      unparseable number becomes an absent double. */
  function TypeMapped(opt: ConfigOption, v: Option<string>, ctx: Context): (r: Value)
    ensures SameVariant(r, opt.defaultValue)
    ensures opt.defaultValue.StringValue? ==> r == StringValue(v)
    ensures opt.defaultValue.DoubleValue? ==>
      r == DoubleValue(if v.Some? then ctx.parseNumber(v.value) else None)
    ensures opt.defaultValue.BoolValue? ==>
      r == BoolValue(if v.Some? then Some(ctx.parseBool(v.value)) else None)
    ensures v.None? ==> IsNotSet(r)
  {
    match opt.defaultValue
    case StringValue(_) => StringValue(v)
    case DoubleValue(_) =>
      (match v
       case Some(text) =>
         (match ctx.parseNumber(text)
          case Some(n) => DoubleValue(Some(n))
          case None => DoubleValue(None))
       case None => DoubleValue(None))
    case BoolValue(_) =>
      (match v
       case Some(text) => BoolValue(Some(ctx.parseBool(text)))
       case None => BoolValue(None))
  }

  /** The environment's value for the option, if its variable is set. */
  function EnvironmentValue(opt: ConfigOption, ctx: Context): (r: Option<Value>)
    ensures r.Some? <==> (EnvironmentVariable(opt, ctx.namespace).Some?
      && EnvironmentVariable(opt, ctx.namespace).value in ctx.environment)
    ensures r.Some? ==> r.value == TypeMapped(opt, Some(ctx.environment[EnvironmentVariable(opt, ctx.namespace).value]), ctx)
  {
    match EnvironmentVariable(opt, ctx.namespace)
    case Some(name) =>
      if name in ctx.environment then Some(TypeMapped(opt, Some(ctx.environment[name]), ctx)) else None
    case None => None
  }

  /** The git config value for the option, if its qualified key is set. */
  function GitconfigValue(opt: ConfigOption, ctx: Context): (r: Option<Value>)
    ensures r.Some? <==> QualifiedKey(opt, ctx.section) in ctx.gitConfig
    ensures r.Some? ==> r.value == TypeMapped(opt, Some(ctx.gitConfig[QualifiedKey(opt, ctx.section)]), ctx)
  {
    var k := QualifiedKey(opt, ctx.section);
    if k in ctx.gitConfig then Some(TypeMapped(opt, Some(ctx.gitConfig[k]), ctx)) else None
  }

  /** The option's current value: `manual ?? environment ?? gitconfig ?? default`. */
  function GetValue(opt: ConfigOption, ctx: Context): (r: Value)
    ensures r == FirstSome([opt.manualValue, EnvironmentValue(opt, ctx), GitconfigValue(opt, ctx)]).GetOr(opt.defaultValue)
  {
    var layers := [opt.manualValue, EnvironmentValue(opt, ctx), GitconfigValue(opt, ctx)];
    assert layers[1..] == [layers[1], layers[2]];
    assert layers[1..][1..] == [layers[2]];
    assert [layers[2]][1..] == [];
    opt.manualValue.GetOr(EnvironmentValue(opt, ctx).GetOr(GitconfigValue(opt, ctx).GetOr(opt.defaultValue)))
  }

  /** Which layer supplies the current value. */
  function GetSource(opt: ConfigOption, ctx: Context): (r: Source)
    ensures r == Manual <==> opt.manualValue.Some?
    ensures r == Environment <==> opt.manualValue.None? && EnvironmentValue(opt, ctx).Some?
    ensures r == GitConfig <==>
      opt.manualValue.None? && EnvironmentValue(opt, ctx).None? && GitconfigValue(opt, ctx).Some?
    ensures r == Default <==>
      opt.manualValue.None? && EnvironmentValue(opt, ctx).None? && GitconfigValue(opt, ctx).None?
  {
    if opt.manualValue.Some? then Manual
    else if EnvironmentValue(opt, ctx).Some? then Environment
    else if GitconfigValue(opt, ctx).Some? then GitConfig
    else Default
  }

  /** The reported source is the layer the value was taken from. */
  lemma SourceAgreesWithValue(opt: ConfigOption, ctx: Context)
    ensures GetSource(opt, ctx) == Manual ==> GetValue(opt, ctx) == opt.manualValue.value
    ensures GetSource(opt, ctx) == Environment ==> GetValue(opt, ctx) == EnvironmentValue(opt, ctx).value
    ensures GetSource(opt, ctx) == GitConfig ==> GetValue(opt, ctx) == GitconfigValue(opt, ctx).value
    ensures GetSource(opt, ctx) == Default ==> GetValue(opt, ctx) == opt.defaultValue
  {
    var layers := [opt.manualValue, EnvironmentValue(opt, ctx), GitconfigValue(opt, ctx)];
    assert layers[1..] == [layers[1], layers[2]];
  }

  /** Setting the value manually. */
  function SetValue(opt: ConfigOption, v: Value): (r: ConfigOption)
    ensures r.manualValue == Some(v)
    ensures r.(manualValue := opt.manualValue) == opt
  {
    opt.(manualValue := Some(v))
  }

  /** A manual setting wins over everything the environment and git config hold. */
  lemma SetThenGet(opt: ConfigOption, v: Value, ctx: Context)
    ensures GetValue(SetValue(opt, v), ctx) == v
    ensures GetSource(SetValue(opt, v), ctx) == Manual
  {
  }

  /** An option without an environment stub never takes its value from the
      environment. */
  lemma NoStubNeverEnvironment(opt: ConfigOption, ctx: Context)
    requires opt.envVarStub.None?
    ensures GetSource(opt, ctx) != Environment
    ensures EnvironmentValue(opt, ctx).None?
  {
  }

  /** A set but unparseable environment variable for a double option still
      wins: it shadows git config and the default with an absent double. */
  lemma UnparseableEnvironmentShadows(opt: ConfigOption, ctx: Context)
    requires opt.manualValue.None? && opt.defaultValue.DoubleValue? && opt.envVarStub.Some?
    requires EnvironmentVariable(opt, ctx.namespace).value in ctx.environment
    requires ctx.parseNumber(ctx.environment[EnvironmentVariable(opt, ctx.namespace).value]).None?
    ensures GetValue(opt, ctx) == DoubleValue(None)
    ensures GetSource(opt, ctx) == Environment
  {
    SourceAgreesWithValue(opt, ctx);
  }

  /** The manual value, if any, has the default's type. */
  predicate WellTyped(opt: ConfigOption) {
    opt.manualValue.None? || SameVariant(opt.manualValue.value, opt.defaultValue)
  }

  /** Every layer yields a value of the default's type. */
  lemma ValueHasDefaultType(opt: ConfigOption, ctx: Context)
    requires WellTyped(opt)
    ensures SameVariant(GetValue(opt, ctx), opt.defaultValue)
  {
    SourceAgreesWithValue(opt, ctx);
  }

  /** Constructors of the typed options. */
  function BoolOption(key: string, description: string, defaultValue: Option<bool>, envVarStub: Option<string>): ConfigOption {
    ConfigOption(key, description, envVarStub, BoolValue(defaultValue), None)
  }

  function DoubleOption(key: string, description: string, defaultValue: Option<real>, envVarStub: Option<string>): ConfigOption {
    ConfigOption(key, description, envVarStub, DoubleValue(defaultValue), None)
  }

  function StringOption(key: string, description: string, defaultValue: Option<string>, envVarStub: Option<string>): ConfigOption {
    ConfigOption(key, description, envVarStub, StringValue(defaultValue), None)
  }

  /** The typed getters: the payload when the current value has the type
      asked for, none otherwise. */
  function BoolGet(opt: ConfigOption, ctx: Context): (r: Option<bool>)
    ensures GetValue(opt, ctx).BoolValue? ==> r == GetValue(opt, ctx).b
    ensures !GetValue(opt, ctx).BoolValue? ==> r.None?
  {
    match GetValue(opt, ctx)
    case BoolValue(v) => v
    case _ => None
  }

  function DoubleGet(opt: ConfigOption, ctx: Context): (r: Option<real>)
    ensures GetValue(opt, ctx).DoubleValue? ==> r == GetValue(opt, ctx).d
    ensures !GetValue(opt, ctx).DoubleValue? ==> r.None?
  {
    match GetValue(opt, ctx)
    case DoubleValue(v) => v
    case _ => None
  }

  function StringGet(opt: ConfigOption, ctx: Context): (r: Option<string>)
    ensures GetValue(opt, ctx).StringValue? ==> r == GetValue(opt, ctx).s
    ensures !GetValue(opt, ctx).StringValue? ==> r.None?
  {
    match GetValue(opt, ctx)
    case StringValue(v) => v
    case _ => None
  }

  /** The typed setters store a value of their type manually. */
  function BoolSet(opt: ConfigOption, v: Option<bool>): ConfigOption {
    SetValue(opt, BoolValue(v))
  }

  function DoubleSet(opt: ConfigOption, v: Option<real>): ConfigOption {
    SetValue(opt, DoubleValue(v))
  }

  function StringSet(opt: ConfigOption, v: Option<string>): ConfigOption {
    SetValue(opt, StringValue(v))
  }

  /** Reading back through a typed getter what a typed setter stored gives
      that payload, and keeps the option well typed for its kind. */
  lemma TypedSetThenGet(opt: ConfigOption, ctx: Context, b: Option<bool>, d: Option<real>, s: Option<string>)
    ensures BoolGet(BoolSet(opt, b), ctx) == b
    ensures DoubleGet(DoubleSet(opt, d), ctx) == d
    ensures StringGet(StringSet(opt, s), ctx) == s
    ensures opt.defaultValue.BoolValue? ==> WellTyped(BoolSet(opt, b))
    ensures opt.defaultValue.DoubleValue? ==> WellTyped(DoubleSet(opt, d))
    ensures opt.defaultValue.StringValue? ==> WellTyped(StringSet(opt, s))
  {
  }

  /** A freshly built double option takes a parseable environment value over
      git config and the default. */
  lemma DoubleOptionFromEnvironment(key: string, description: string, defaultValue: Option<real>,
                                    stub: string, ctx: Context, n: real)
    requires ctx.namespace + "_" + stub in ctx.environment
    requires ctx.parseNumber(ctx.environment[ctx.namespace + "_" + stub]) == Some(n)
    ensures DoubleGet(DoubleOption(key, description, defaultValue, Some(stub)), ctx) == Some(n)
    ensures GetSource(DoubleOption(key, description, defaultValue, Some(stub)), ctx) == Environment
  {
    SourceAgreesWithValue(DoubleOption(key, description, defaultValue, Some(stub)), ctx);
  }

  /** Freshly built boolean and string options with no environment value:
      git config's text, converted to the option's type, when the qualified
      key is present, and the default otherwise. */
  lemma BoolAndStringOptionLayers(key: string, description: string, b: Option<bool>, s: Option<string>,
                                  stub: Option<string>, ctx: Context)
    requires stub.None? || ctx.namespace + "_" + stub.value !in ctx.environment
    ensures ctx.section + "." + key in ctx.gitConfig ==>
      BoolGet(BoolOption(key, description, b, stub), ctx) == Some(ctx.parseBool(ctx.gitConfig[ctx.section + "." + key]))
      && StringGet(StringOption(key, description, s, stub), ctx) == Some(ctx.gitConfig[ctx.section + "." + key])
      && GetSource(StringOption(key, description, s, stub), ctx) == GitConfig
    ensures ctx.section + "." + key !in ctx.gitConfig ==>
      BoolGet(BoolOption(key, description, b, stub), ctx) == b
      && StringGet(StringOption(key, description, s, stub), ctx) == s
      && GetSource(BoolOption(key, description, b, stub), ctx) == Default
  {
    SourceAgreesWithValue(BoolOption(key, description, b, stub), ctx);
    SourceAgreesWithValue(StringOption(key, description, s, stub), ctx);
  }
}
