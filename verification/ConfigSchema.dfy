/** The editable settings (src/config-schema.ts): saving differences and layering them again. */
module ConfigSchema {

  import opened Base
  import opened Text

  /** A stored override: a JSON null, boolean, whole number or string. */
  datatype Value = Null | Truth(flag: bool) | Whole(count: int) | Line(text: string)

  /** The member of the configuration that a field reads and writes. */
  datatype Setting = Switch(flag: bool) | Count(count: int) | Unset | Entry(text: string) | Items(items: seq<string>)

  /** How a field reads its environment variable, shows its setting and applies an override. */
  datatype Rule =
    | Flag(initial: bool)
    /** A flag that defaults to whether mail is configured; only one of the two has a variable. */
    | MailFlag(hasVariable: bool)
    | Number(default: int)
    | OptionalNumber
    | PlainText
    | TextOr(fallback: string)
    | LowerOr(fallback: string)
    | Site
    | Url
    | CommaList

  type Schema = map<string, Rule>
  type Config = map<string, Setting>
  type Overrides = map<string, Value>

  /** A posted value; other JSON values are known by their String() and their floored Number(), if finite. */
  datatype Raw = RawNull | RawBool(flag: bool) | RawText(text: string) | RawOther(text: string, floored: Option<int>)

  type Form = map<string, Raw>

  /** What the environment says: one variable per field, and the two values fields share. */
  datatype Env = Env(variables: map<string, string>, origin: string, mailConfigured: bool)

  /** Math.floor(Number(s)) where that is finite. */
  type Numeric = string -> Option<int>

  // ------------------------------------------------------------------------------ field types

  predicate IsCheckbox(rule: Rule) {
    rule.Flag? || rule.MailFlag?
  }

  predicate IsNumber(rule: Rule) {
    rule.Number? || rule.OptionalNumber?
  }

  /** The setting has the type of its field. */
  predicate Holds(rule: Rule, s: Setting) {
    match rule
    case Flag(_) => s.Switch?
    case MailFlag(_) => s.Switch?
    case Number(_) => s.Count?
    case OptionalNumber => s.Count? || s.Unset?
    case CommaList => s.Items?
    case _ => s.Entry?
  }

  /** The override has the type that the field's form values are parsed to. */
  predicate Fits(rule: Rule, v: Value) {
    if IsCheckbox(rule) then v.Truth? else if IsNumber(rule) then v.Null? || v.Whole? else v.Null? || v.Line?
  }

  function StripSlashes(s: string): (t: string)
    ensures t != "" ==> t[|t| - 1] != '/'
  {
    if s != "" && s[|s| - 1] == '/' then StripSlashes(s[..|s| - 1]) else s
  }

  /** Trims and lowers every item, and drops the blank ones. */
  function TidyItems(parts: seq<string>): seq<string> {
    if parts == [] then []
    else
      var item := Lower(Trim(parts[0]));
      (if item == "" then [] else [item]) + TidyItems(parts[1..])
  }

  function ParseItems(s: string): seq<string> {
    TidyItems(Split(s, ','))
  }

  // ------------------------------------------------------------------------------ one field

  predicate IsOn(raw: Raw) {
    raw == RawBool(true) || raw == RawText("true") || raw == RawText("1") || raw == RawText("on")
  }

  function AsText(raw: Raw): string
    requires !raw.RawNull?
  {
    match raw
    case RawBool(b) => if b then "true" else "false"
    case RawText(s) => s
    case RawOther(s, _) => s
  }

  function AsNumber(raw: Raw, numeric: Numeric): Option<int>
    requires !raw.RawNull?
  {
    match raw
    case RawBool(b) => Some(if b then 1 else 0)
    case RawText(s) => numeric(s)
    case RawOther(_, n) => n
  }

  /** parseByType: a posted value in its stored form. */
  function Parse(rule: Rule, raw: Raw, numeric: Numeric): (v: Value)
    ensures Fits(rule, v)
  {
    if IsCheckbox(rule) then Truth(IsOn(raw))
    else if raw == RawNull || raw == RawText("") then Null
    else if IsNumber(rule) then
      match AsNumber(raw, numeric)
      case None => Null
      case Some(n) => Whole(n)
    else Line(AsText(raw))
  }

  /** The value a field shows. */
  function Get(s: Setting): Value {
    match s
    case Switch(b) => Truth(b)
    case Count(n) => Whole(n)
    case Unset => Null
    case Entry(t) => Line(t)
    case Items(l) => Line(Join(l, ','))
  }

  /** normalizeForCompare: a shown value in stored form. */
  function Normalize(v: Value): Value {
    if v == Line("") then Null else v
  }

  function Str(v: Value): string
    requires v.Null? || v.Line?
  {
    if v.Null? then "" else v.text
  }

  function Or(s: string, fallback: string): string {
    if s == "" then fallback else s
  }

  /** A field's setting after an override is applied to it. */
  function Apply(rule: Rule, was: Setting, v: Value): (s: Setting)
    requires Holds(rule, was) && Fits(rule, v)
    ensures Holds(rule, s)
  {
    match rule
    case Flag(_) => Switch(v.flag)
    case MailFlag(_) => Switch(v.flag)
    case Number(_) => if v.Null? then was else Count(v.count)
    case OptionalNumber => if v.Null? then Unset else Count(v.count)
    case PlainText => Entry(Str(v))
    case TextOr(fallback) => Entry(Or(Str(v), fallback))
    case LowerOr(fallback) => Entry(Or(Lower(Str(v)), fallback))
    case Site => if StripSlashes(Str(v)) == "" then was else Entry(StripSlashes(Str(v)))
    case Url => Entry(StripSlashes(Str(v)))
    case CommaList => Items(ParseItems(Str(v)))
  }

  // ------------------------------------------------------------------------------ whole forms

  ghost predicate WellTyped(schema: Schema, cfg: Config) {
    cfg.Keys == schema.Keys && forall f | f in schema :: Holds(schema[f], cfg[f])
  }

  ghost predicate AllFit(schema: Schema, overrides: Overrides) {
    forall f | f in overrides && f in schema :: Fits(schema[f], overrides[f])
  }

  /** The configuration in which every override of a known field has been applied. */
  ghost function Layered(schema: Schema, base: Config, overrides: Overrides): (cfg: Config)
    requires WellTyped(schema, base) && AllFit(schema, overrides)
    ensures WellTyped(schema, cfg)
  {
    map f | f in schema :: if f in overrides then Apply(schema[f], base[f], overrides[f]) else base[f]
  }

  /** Every posted field that is known, parsed. */
  ghost function ParsedForm(schema: Schema, posted: Form, numeric: Numeric): (o: Overrides)
    ensures AllFit(schema, o)
  {
    map f | f in schema && f in posted :: Parse(schema[f], posted[f], numeric)
  }

  /** The environment's value of a field, as form values are compared with it. */
  function EnvValue(cfg: Config, f: string): Value
    requires f in cfg
  {
    Normalize(Get(cfg[f]))
  }

  /** Layers stored overrides over the environment's configuration, whatever order they come in. */
  method ApplyOverrides(schema: Schema, base: Config, overrides: Overrides) returns (cfg: Config)
    requires WellTyped(schema, base) && AllFit(schema, overrides)
    ensures cfg == Layered(schema, base, overrides)
  {
    cfg := base;
    var left := overrides.Keys;
    while left != {}
      invariant left <= overrides.Keys && WellTyped(schema, cfg)
      invariant forall f | f in schema ::
          cfg[f] == if f in overrides && f !in left then Apply(schema[f], base[f], overrides[f]) else base[f]
      decreases |left|
    {
      var name :| name in left;
      left := left - {name};
      if name in schema {
        cfg := cfg[name := Apply(schema[name], cfg[name], overrides[name])];
      }
    }
    assert cfg == Layered(schema, base, overrides);
  }

  /** The overrides worth storing: the posted fields whose value differs from the environment's. */
  method DiffOverrides(schema: Schema, posted: Form, envBase: Config, numeric: Numeric) returns (out: Overrides)
    requires WellTyped(schema, envBase)
    ensures forall f :: f in out <==>
                        && f in schema && f in posted
                        && Parse(schema[f], posted[f], numeric) != EnvValue(envBase, f)
    ensures forall f | f in out :: out[f] == Parse(schema[f], posted[f], numeric)
  {
    out := map[];
    var left := schema.Keys;
    while left != {}
      invariant left <= schema.Keys
      invariant forall f :: f in out <==>
                            && f in schema && f !in left && f in posted
                            && Parse(schema[f], posted[f], numeric) != EnvValue(envBase, f)
      invariant forall f | f in out :: out[f] == Parse(schema[f], posted[f], numeric)
      decreases |left|
    {
      var name :| name in left;
      left := left - {name};
      if name in posted {
        var parsed := Parse(schema[name], posted[name], numeric);
        if parsed != EnvValue(envBase, name) {
          out := out[name := parsed];
        }
      }
    }
  }

  /** What DiffOverrides returns. */
  ghost predicate IsDiff(schema: Schema, posted: Form, env: Config, numeric: Numeric, out: Overrides)
    requires WellTyped(schema, env)
  {
    && (forall f :: f in out <==>
                    && f in schema && f in posted && Parse(schema[f], posted[f], numeric) != EnvValue(env, f))
    && forall f | f in out :: out[f] == Parse(schema[f], posted[f], numeric)
  }

  // ------------------------------------------------------------------------------ normal form

  /** An origin, scheme and host, does not end in a slash. */
  predicate IsOrigin(s: string) {
    s != "" && s[|s| - 1] != '/'
  }

  predicate IsTidyItem(x: string) {
    x != "" && ',' !in x && IsTrimmed(x) && IsLower(x)
  }

  /** A setting whose own shown value, applied again, would leave it as it is. */
  ghost predicate IsNormal(rule: Rule, s: Setting)
    requires Holds(rule, s)
  {
    match rule
    case TextOr(_) => s.text != ""
    case LowerOr(_) => s.text != "" && IsLower(s.text)
    case Site => StripSlashes(s.text) == "" || s.text[|s.text| - 1] != '/'
    case Url => s.text == "" || s.text[|s.text| - 1] != '/'
    case CommaList => forall x | x in s.items :: IsTidyItem(x)
    case _ => true
  }

  /** Fields fall back to a text that is itself normal. */
  predicate IsSound(rule: Rule) {
    match rule
    case TextOr(fallback) => fallback != ""
    case LowerOr(fallback) => fallback != "" && IsLower(fallback)
    case _ => true
  }

  lemma StripStays(s: string)
    ensures StripSlashes(s) == s <==> s == "" || s[|s| - 1] != '/'
  {
    StripShortens(s);
  }

  lemma {:induction false} StripShortens(s: string)
    ensures |StripSlashes(s)| <= |s|
    ensures s != "" && s[|s| - 1] == '/' ==> |StripSlashes(s)| < |s|
  {
    if s != "" && s[|s| - 1] == '/' {
      StripShortens(s[..|s| - 1]);
    }
  }

  lemma {:induction false} TidiedAreTidy(parts: seq<string>)
    requires forall p | p in parts :: ',' !in p
    ensures forall x | x in TidyItems(parts) :: IsTidyItem(x)
  {
    if parts != [] {
      var p := parts[0];
      assert p in parts;
      TidiedAreTidy(parts[1..]);
      LowerOfTrimmed(p);
      NoCommaAppears(p);
    }
  }

  lemma NoCommaAppears(p: string)
    requires ',' !in p
    ensures ',' !in Lower(Trim(p))
  {
    var t := Trim(p);
    TrimKeeps(p, ',');
    forall i | 0 <= i < |t|
      ensures LowerChar(t[i]) != ','
    {
      assert t[i] in t;
    }
  }

  lemma {:induction false} TidyStays(items: seq<string>)
    requires forall x | x in items :: IsTidyItem(x)
    ensures TidyItems(items) == items
  {
    if items != [] {
      assert items[0] in items;
      TidyStays(items[1..]);
      TrimmedStays(items[0]);
      LowerStays(items[0]);
      assert items == [items[0]] + items[1..];
    }
  }

  /** Parsing undoes joining exactly for lists of tidy items. */
  lemma ItemsReadBack(items: seq<string>)
    ensures ParseItems(Join(items, ',')) == items <==> forall x | x in items :: IsTidyItem(x)
  {
    var s := Join(items, ',');
    if ParseItems(s) == items {
      SplitHasNoSeparator(s, ',');
      TidiedAreTidy(Split(s, ','));
    }
    if forall x | x in items :: IsTidyItem(x) {
      if items == [] {
        assert Split("", ',') == [""];
        assert TidyItems([""]) == [] by {
          assert [""][1..] == [];
        }
      } else {
        SplitOfJoin(items, ',');
        TidyStays(items);
      }
    }
  }

  /** The concrete normal form is the fixed-point property that saving differences relies on. */
  lemma NormalIffFixed(rule: Rule, s: Setting)
    requires Holds(rule, s) && IsSound(rule)
    ensures Fits(rule, Normalize(Get(s)))
    ensures Apply(rule, s, Normalize(Get(s))) == s <==> IsNormal(rule, s)
  {
    match rule
    case LowerOr(_) => {
      LowerFixed(s.text);
    }
    case Site => {
      StripStays(s.text);
    }
    case Url => {
      StripStays(s.text);
    }
    case CommaList => {
      ItemsReadBack(s.items);
      assert Str(Normalize(Get(s))) == Join(s.items, ',');
    }
    case _ => {
    }
  }

  lemma LowerFixed(s: string)
    ensures Lower(s) == s <==> IsLower(s)
  {
  }

  ghost predicate SoundSchema(schema: Schema) {
    forall f | f in schema :: IsSound(schema[f])
  }

  /** A field whose posted value equals the environment's, although applying it would change the setting. */
  ghost predicate IsLost(schema: Schema, env: Config, posted: Form, numeric: Numeric, f: string)
    requires WellTyped(schema, env)
  {
    && f in schema && f in posted
    && Parse(schema[f], posted[f], numeric) == EnvValue(env, f)
    && !IsNormal(schema[f], env[f])
  }

  lemma OneFieldSaved(schema: Schema, env: Config, posted: Form, numeric: Numeric, out: Overrides, f: string)
    requires WellTyped(schema, env) && SoundSchema(schema) && IsDiff(schema, posted, env, numeric, out)
    requires f in schema
    ensures AllFit(schema, out)
    ensures Layered(schema, env, out)[f] == Layered(schema, env, ParsedForm(schema, posted, numeric))[f]
            <==> !IsLost(schema, env, posted, numeric, f)
  {
    NormalIffFixed(schema[f], env[f]);
  }

  /**
   * Storing the differences and layering them again means the same as applying every posted field,
   * exactly when no posted value that equals the environment's falls on a setting outside normal form.
   */
  lemma SavedMeansPosted(schema: Schema, env: Config, posted: Form, numeric: Numeric, out: Overrides)
    requires WellTyped(schema, env) && SoundSchema(schema) && IsDiff(schema, posted, env, numeric, out)
    ensures AllFit(schema, out)
    ensures Layered(schema, env, out) == Layered(schema, env, ParsedForm(schema, posted, numeric))
            <==> forall f :: !IsLost(schema, env, posted, numeric, f)
  {
    forall f | f in schema
      ensures AllFit(schema, out)
      ensures Layered(schema, env, out)[f] == Layered(schema, env, ParsedForm(schema, posted, numeric))[f]
              <==> !IsLost(schema, env, posted, numeric, f)
    {
      OneFieldSaved(schema, env, posted, numeric, out, f);
    }
    var saved, direct := Layered(schema, env, out), Layered(schema, env, ParsedForm(schema, posted, numeric));
    assert saved == direct <==> forall f | f in schema :: saved[f] == direct[f];
  }

  // ------------------------------------------------------------------------------ the environment

  function LoadFlag(variable: Option<string>, initial: bool): bool {
    if variable.None? || variable.value == "" then initial else variable.value == "true" || variable.value == "1"
  }

  function LoadNumber(variable: Option<string>, default: int, numeric: Numeric): int {
    if variable.None? || variable.value == "" then default
    else
      match numeric(variable.value)
      case None => default
      case Some(n) => n
  }

  function Lookup(env: Env, f: string): Option<string> {
    if f in env.variables then Some(env.variables[f]) else None
  }

  /** loadConfig for one field. */
  function LoadSetting(rule: Rule, variable: Option<string>, env: Env, numeric: Numeric): (s: Setting)
    ensures Holds(rule, s)
  {
    var text := if variable.None? then "" else variable.value;
    match rule
    case Flag(initial) => Switch(LoadFlag(variable, initial))
    case MailFlag(hasVariable) =>
      Switch(if hasVariable then LoadFlag(variable, env.mailConfigured) else env.mailConfigured)
    case Number(default) => Count(LoadNumber(variable, default, numeric))
    case OptionalNumber => if text == "" then Unset else Count(LoadNumber(variable, 0, numeric))
    case PlainText => Entry(text)
    case TextOr(fallback) => Entry(Or(text, fallback))
    case LowerOr(fallback) => Entry(Lower(if variable.None? then fallback else variable.value))
    case Site => Entry(Or(StripSlashes(text), env.origin))
    case Url => Entry(StripSlashes(text))
    case CommaList => Items(ParseItems(text))
  }

  ghost function LoadConfig(schema: Schema, env: Env, numeric: Numeric): (cfg: Config)
    ensures WellTyped(schema, cfg)
  {
    map f | f in schema :: LoadSetting(schema[f], Lookup(env, f), env, numeric)
  }

  /** Every setting is loaded in normal form, but for a lower-case text whose variable is set and empty. */
  lemma LoadedIsNormal(rule: Rule, variable: Option<string>, env: Env, numeric: Numeric)
    requires IsSound(rule) && IsOrigin(env.origin)
    ensures IsNormal(rule, LoadSetting(rule, variable, env, numeric))
            <==> !(rule.LowerOr? && variable == Some(""))
  {
    var text := if variable.None? then "" else variable.value;
    match rule
    case LowerOr(fallback) => {
      LowerIsLower(if variable.None? then fallback else variable.value);
    }
    case CommaList => {
      SplitHasNoSeparator(text, ',');
      TidiedAreTidy(Split(text, ','));
    }
    case _ => {
    }
  }

  /** A flag is on when its variable is "true" or "1", and has its initial value only while that is unset or blank. */
  lemma FlagIsRead(schema: Schema, env: Env, numeric: Numeric, f: string)
    requires f in schema && schema[f].Flag?
    ensures LoadConfig(schema, env, numeric)[f] ==
            if f !in env.variables || env.variables[f] == "" then Switch(schema[f].initial)
            else Switch(env.variables[f] == "true" || env.variables[f] == "1")
    ensures f in env.variables && env.variables[f] == "false" ==> LoadConfig(schema, env, numeric)[f] == Switch(false)
  {
    assert "false" != "true" by { assert "false"[0] != "true"[0]; }
    assert "false" != "1" by { assert "false"[0] != "1"[0]; }
  }

  /** The two flags on mail: without a variable of their own they follow whether mail is configured. */
  lemma MailFlagIsRead(schema: Schema, env: Env, numeric: Numeric, f: string)
    requires f in schema && schema[f].MailFlag?
    ensures LoadConfig(schema, env, numeric)[f] ==
            if !schema[f].hasVariable || f !in env.variables || env.variables[f] == "" then Switch(env.mailConfigured)
            else Switch(env.variables[f] == "true" || env.variables[f] == "1")
  {
  }

  /** A number falls back to its default when its variable is unset, blank or no number. */
  lemma NumberIsRead(schema: Schema, env: Env, numeric: Numeric, f: string)
    requires f in schema && schema[f].Number?
    ensures LoadConfig(schema, env, numeric)[f] ==
            if f in env.variables && env.variables[f] != "" && numeric(env.variables[f]).Some?
            then Count(numeric(env.variables[f]).value) else Count(schema[f].default)
  {
  }

  lemma LowerIsLower(s: string)
    ensures IsLower(Lower(s)) && (Lower(s) == "" <==> s == "")
  {
  }

  /** A posted blank on a lower-case text whose environment variable is set and empty. */
  ghost predicate BlankOnBlank(schema: Schema, env: Env, posted: Form, numeric: Numeric, f: string) {
    && f in schema && schema[f].LowerOr? && Lookup(env, f) == Some("")
    && f in posted && Parse(schema[f], posted[f], numeric) == Null
  }

  /**
   * For every environment and every posted form, what is saved takes effect as what was posted,
   * unless a field like org_creation_users is posted blank while its variable is set to the empty
   * text: then nothing is stored, and the empty text stays in force instead of the fallback.
   */
  lemma SavedFormTakesEffect(schema: Schema, env: Env, posted: Form, numeric: Numeric, out: Overrides)
    requires SoundSchema(schema) && IsOrigin(env.origin)
    requires IsDiff(schema, posted, LoadConfig(schema, env, numeric), numeric, out)
    ensures AllFit(schema, out)
    ensures var cfg := LoadConfig(schema, env, numeric);
            Layered(schema, cfg, out) == Layered(schema, cfg, ParsedForm(schema, posted, numeric))
            <==> forall f :: !BlankOnBlank(schema, env, posted, numeric, f)
  {
    var cfg := LoadConfig(schema, env, numeric);
    SavedMeansPosted(schema, cfg, posted, numeric, out);
    forall f
      ensures IsLost(schema, cfg, posted, numeric, f) <==> BlankOnBlank(schema, env, posted, numeric, f)
    {
      LostIffBlank(schema, env, posted, numeric, f);
    }
  }

  /** What a text posted for one field makes of its setting, which was `was`. */
  ghost function PostedText(rule: Rule, was: Setting, s: string, numeric: Numeric): Setting {
    var n := if s == "" then None else numeric(s);
    match rule
    case Flag(_) => Switch(s == "true" || s == "1" || s == "on")
    case MailFlag(_) => Switch(s == "true" || s == "1" || s == "on")
    case Number(_) => if n.None? then was else Count(n.value)
    case OptionalNumber => if n.None? then Unset else Count(n.value)
    case PlainText => Entry(s)
    case TextOr(fallback) => Entry(if s == "" then fallback else s)
    case LowerOr(fallback) => Entry(if s == "" then fallback else Lower(s))
    case Site => if StripSlashes(s) == "" then was else Entry(StripSlashes(s))
    case Url => Entry(StripSlashes(s))
    case CommaList => Items(ParseItems(s))
  }

  /** Saving the form and reading the settings back shows, field by field, what was typed into it. */
  lemma PostedTextTakesEffect(schema: Schema, env: Env, posted: Form, numeric: Numeric, out: Overrides, f: string, s: string)
    requires SoundSchema(schema) && IsOrigin(env.origin)
    requires IsDiff(schema, posted, LoadConfig(schema, env, numeric), numeric, out)
    requires f in schema && f in posted && posted[f] == RawText(s)
    requires !(schema[f].LowerOr? && s == "" && Lookup(env, f) == Some(""))
    ensures AllFit(schema, out)
    ensures var cfg := LoadConfig(schema, env, numeric);
            Layered(schema, cfg, out)[f] == PostedText(schema[f], cfg[f], s, numeric)
  {
    var cfg := LoadConfig(schema, env, numeric);
    LostIffBlank(schema, env, posted, numeric, f);
    OneFieldSaved(schema, cfg, posted, numeric, out, f);
    LowerIsLower(s);
  }

  /** Fields that are not on the form keep their environment's setting. */
  lemma UnpostedFieldsStay(schema: Schema, env: Env, posted: Form, numeric: Numeric, out: Overrides, f: string)
    requires IsDiff(schema, posted, LoadConfig(schema, env, numeric), numeric, out)
    requires f in schema && f !in posted
    ensures AllFit(schema, out)
    ensures var cfg := LoadConfig(schema, env, numeric); Layered(schema, cfg, out)[f] == cfg[f]
  {
  }

  lemma LostIffBlank(schema: Schema, env: Env, posted: Form, numeric: Numeric, f: string)
    requires SoundSchema(schema) && IsOrigin(env.origin)
    ensures IsLost(schema, LoadConfig(schema, env, numeric), posted, numeric, f)
            <==> BlankOnBlank(schema, env, posted, numeric, f)
  {
    if f in schema {
      var rule, variable := schema[f], Lookup(env, f);
      LoadedIsNormal(rule, variable, env, numeric);
      if rule.LowerOr? && variable == Some("") {
        LowerIsLower("");
        assert LoadConfig(schema, env, numeric)[f] == Entry("");
      }
    }
  }

  // ------------------------------------------------------------------------------ saving what is shown

  /** What the settings page posts for a field that was not edited. */
  function Shown(s: Setting): Raw {
    match Get(s)
    case Null => RawNull
    case Truth(b) => RawBool(b)
    case Whole(n) => RawOther("", Some(n))
    case Line(t) => RawText(t)
  }

  lemma ShownIsParsed(rule: Rule, s: Setting, numeric: Numeric)
    requires Holds(rule, s)
    ensures Parse(rule, Shown(s), numeric) == Normalize(Get(s))
  {
  }

  /** Applying an override to a normal setting gives a normal setting. */
  lemma AppliedIsNormal(rule: Rule, was: Setting, v: Value)
    requires Holds(rule, was) && Fits(rule, v) && IsSound(rule) && IsNormal(rule, was)
    ensures IsNormal(rule, Apply(rule, was, v))
  {
    match rule
    case LowerOr(_) => {
      LowerIsLower(Str(v));
    }
    case CommaList => {
      SplitHasNoSeparator(Str(v), ',');
      TidiedAreTidy(Split(Str(v), ','));
    }
    case _ => {
    }
  }

  ghost predicate NormalConfig(schema: Schema, cfg: Config)
    requires WellTyped(schema, cfg)
  {
    forall f | f in schema :: IsNormal(schema[f], cfg[f]) && (schema[f].Site? ==> IsOrigin(cfg[f].text))
  }

  /** The shown value of a normal setting, applied to any other normal setting, gives that setting. */
  lemma ShownReplaces(rule: Rule, was: Setting, s: Setting)
    requires Holds(rule, was) && Holds(rule, s) && IsSound(rule) && IsNormal(rule, s)
    requires rule.Site? ==> IsOrigin(s.text)
    ensures Fits(rule, Normalize(Get(s))) && Apply(rule, was, Normalize(Get(s))) == s
  {
    NormalIffFixed(rule, s);
    StripStays(if rule.Site? then s.text else "");
  }

  /**
   * Saving the settings page as it is shown keeps the configuration in force, however it came
   * about: the form of every field of any normal configuration, stored as differences, layers back
   * to that configuration.
   */
  lemma SavingWhatIsShown(schema: Schema, env: Config, cfg: Config, posted: Form, numeric: Numeric, out: Overrides)
    requires WellTyped(schema, env) && WellTyped(schema, cfg) && SoundSchema(schema)
    requires NormalConfig(schema, env) && NormalConfig(schema, cfg)
    requires posted.Keys == schema.Keys && forall f | f in schema :: posted[f] == Shown(cfg[f])
    requires IsDiff(schema, posted, env, numeric, out)
    ensures AllFit(schema, out) && Layered(schema, env, out) == cfg
  {
    forall f | f in schema
      ensures f in out ==> Fits(schema[f], out[f])
      ensures (if f in out then Apply(schema[f], env[f], out[f]) else env[f]) == cfg[f]
    {
      var parsed := Parse(schema[f], posted[f], numeric);
      ShownIsParsed(schema[f], cfg[f], numeric);
      assert f in out <==> parsed != EnvValue(env, f);
      OneFieldShown(schema[f], env[f], cfg[f], parsed);
    }
    LayeredFieldByField(schema, env, out, cfg);
  }

  lemma LayeredFieldByField(schema: Schema, base: Config, overrides: Overrides, cfg: Config)
    requires WellTyped(schema, base) && WellTyped(schema, cfg) && AllFit(schema, overrides)
    requires forall f | f in schema ::
               (if f in overrides then Apply(schema[f], base[f], overrides[f]) else base[f]) == cfg[f]
    ensures Layered(schema, base, overrides) == cfg
  {
  }

  lemma OneFieldShown(rule: Rule, env: Setting, s: Setting, parsed: Value)
    requires Holds(rule, env) && Holds(rule, s) && IsSound(rule) && IsNormal(rule, env) && IsNormal(rule, s)
    requires rule.Site? ==> IsOrigin(env.text) && IsOrigin(s.text)
    requires parsed == Normalize(Get(s))
    ensures Fits(rule, parsed)
    ensures (if parsed != Normalize(Get(env)) then Apply(rule, env, parsed) else env) == s
  {
    ShownReplaces(rule, env, s);
    ShownReplaces(rule, env, env);
  }

  lemma LoadedConfigIsNormal(schema: Schema, env: Env, numeric: Numeric)
    requires SoundSchema(schema) && IsOrigin(env.origin)
    requires forall f | f in schema && schema[f].LowerOr? :: Lookup(env, f) != Some("")
    ensures NormalConfig(schema, LoadConfig(schema, env, numeric))
  {
    forall f | f in schema
      ensures IsNormal(schema[f], LoadConfig(schema, env, numeric)[f])
    {
      LoadedIsNormal(schema[f], Lookup(env, f), env, numeric);
    }
  }

  lemma LayeredConfigIsNormal(schema: Schema, base: Config, overrides: Overrides)
    requires WellTyped(schema, base) && AllFit(schema, overrides) && SoundSchema(schema)
    requires NormalConfig(schema, base)
    ensures NormalConfig(schema, Layered(schema, base, overrides))
  {
    forall f | f in schema && f in overrides
      ensures IsNormal(schema[f], Layered(schema, base, overrides)[f])
    {
      AppliedIsNormal(schema[f], base[f], overrides[f]);
    }
  }

  /**
   * Whatever is stored, opening the settings page and saving it unedited keeps the configuration in
   * force, in every environment that leaves no lower-case text set and empty.
   */
  lemma SavingUneditedKeepsConfig(
    schema: Schema, env: Env, stored: Overrides, posted: Form, numeric: Numeric, out: Overrides)
    requires SoundSchema(schema) && IsOrigin(env.origin) && AllFit(schema, stored)
    requires forall f | f in schema && schema[f].LowerOr? :: Lookup(env, f) != Some("")
    requires var inForce := Layered(schema, LoadConfig(schema, env, numeric), stored);
             posted.Keys == schema.Keys && forall f | f in schema :: posted[f] == Shown(inForce[f])
    requires IsDiff(schema, posted, LoadConfig(schema, env, numeric), numeric, out)
    ensures AllFit(schema, out)
    ensures Layered(schema, LoadConfig(schema, env, numeric), out)
            == Layered(schema, LoadConfig(schema, env, numeric), stored)
  {
    var base := LoadConfig(schema, env, numeric);
    LoadedConfigIsNormal(schema, env, numeric);
    LayeredConfigIsNormal(schema, base, stored);
    SavingWhatIsShown(schema, base, Layered(schema, base, stored), posted, numeric, out);
  }

  // ------------------------------------------------------------------------------ the settings

  const FIELD_NAMES: set<string> := {
    "domain", "signups_allowed", "signups_verify", "signups_domains_whitelist", "login_allowed_emails",
    "invitations_allowed", "emergency_access_allowed", "sends_allowed", "org_creation_users",
    "password_hints_allowed", "show_password_hint", "trash_auto_delete_days", "user_attachment_limit",
    "user_send_limit", "org_groups_enabled", "org_events_enabled", "icon_service", "icon_cache_ttl",
    "email_enabled", "smtp_from", "smtp_from_name", "_enable_email_2fa", "push_enabled", "push_relay_uri",
    "push_identity_uri", "_enable_yubico", "yubico_client_id", "yubico_secret_key", "yubico_server",
    "_enable_duo", "duo_ikey", "duo_skey", "duo_host", "sso_enabled", "sso_only", "sso_authority",
    "sso_client_id", "sso_client_secret", "sso_scopes", "sso_signups_match_email",
    "sso_allow_unknown_email_verification", "sso_pkce", "login_ratelimit_max_burst", "admin_session_lifetime"
  }

  /** The rule of each settings field. */
  function RuleOf(name: string): Rule {
    if name == "org_creation_users" then LowerOr("all")
    else if name == "domain" then Site
    else if name == "sso_authority" then Url
    else if name in {"signups_domains_whitelist", "login_allowed_emails"} then CommaList
    else if name == "trash_auto_delete_days" then Number(30)
    else if name == "icon_cache_ttl" then Number(2_592_000)
    else if name == "login_ratelimit_max_burst" then Number(10)
    else if name == "admin_session_lifetime" then Number(20)
    else if name in {"user_attachment_limit", "user_send_limit"} then OptionalNumber
    else if name == "icon_service" then TextOr("internal")
    else if name == "smtp_from_name" then TextOr("Vaultur")
    else if name == "push_relay_uri" then TextOr("https://push.bitwarden.com")
    else if name == "push_identity_uri" then TextOr("https://identity.bitwarden.com")
    else if name == "yubico_server" then TextOr("https://api.yubico.com/wsapi/2.0/verify")
    else if name == "sso_scopes" then TextOr("email profile")
    else if name == "email_enabled" then MailFlag(false)
    else if name == "_enable_email_2fa" then MailFlag(true)
    else if name in {
      "smtp_from", "yubico_client_id", "yubico_secret_key", "duo_ikey", "duo_skey", "duo_host",
      "sso_client_id", "sso_client_secret"
    } then PlainText
    else if name in {
      "signups_verify", "show_password_hint", "org_groups_enabled", "org_events_enabled", "push_enabled",
      "sso_enabled", "sso_only", "sso_allow_unknown_email_verification"
    } then Flag(false)
    else Flag(true)
  }

  ghost function Settings(): Schema {
    map name | name in FIELD_NAMES :: RuleOf(name)
  }

  lemma EveryRuleIsSound(name: string)
    ensures IsSound(RuleOf(name)) && (RuleOf(name).LowerOr? <==> name == "org_creation_users")
  {
  }

  /** For the settings of the server, the one exception is a blank on a blank in org_creation_users. */
  lemma SavedSettingsTakeEffect(env: Env, posted: Form, numeric: Numeric, out: Overrides)
    requires IsOrigin(env.origin)
    requires IsDiff(Settings(), posted, LoadConfig(Settings(), env, numeric), numeric, out)
    ensures AllFit(Settings(), out)
    ensures var cfg := LoadConfig(Settings(), env, numeric);
            var f := "org_creation_users";
            Layered(Settings(), cfg, out) == Layered(Settings(), cfg, ParsedForm(Settings(), posted, numeric))
            <==> !(Lookup(env, f) == Some("") && f in posted && Parse(LowerOr("all"), posted[f], numeric) == Null)
  {
    var schema, name := Settings(), "org_creation_users";
    assert name in FIELD_NAMES;
    forall f | f in schema
      ensures IsSound(schema[f]) && (schema[f].LowerOr? <==> f == name)
    {
      EveryRuleIsSound(f);
    }
    SavedFormTakesEffect(schema, env, posted, numeric, out);
    assert BlankOnBlank(schema, env, posted, numeric, name) <==>
           Lookup(env, name) == Some("") && name in posted && Parse(LowerOr("all"), posted[name], numeric) == Null;
  }
}
