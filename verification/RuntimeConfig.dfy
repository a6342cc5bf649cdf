/** One process's view of the runtime configuration: typed values, the deploy-time baseline, and the
    application of database overrides to the process environment and settings. */
module RuntimeConfig {
  import opened Common

  type Key = string

  datatype ValueType = BoolType | IntType | FloatType | ListType | StrType

  datatype Value =
    | NoValue
    | BoolValue(b: bool)
    | IntValue(i: int)
    | FloatValue(r: real)
    | ListValue(items: seq<string>)
    | StrValue(s: string)

  /** One entry of the registry of editable keys. hasField: the value is mirrored in a settings attribute; sensitive: it
      is stored encrypted. */
  datatype Spec = Spec(valueType: ValueType, hasField: bool, sensitive: bool, min: Option<real>, max: Option<real>)

  type Registry = map<Key, Spec>

  /** A row of config_overrides. */
  datatype Row = Row(value: string, valueType: ValueType, isSecret: bool)

  type Table = map<Key, Row>

  /** Conversions done by Python and its libraries: character classes and case, int(), float() and str() of numbers,
      JSON and repr() of a list of strings, and Fernet. isFloat holds of the reals that are floats; toFloat is float()
      of an integer. */
  datatype Text = Text(
    isSpace: char -> bool,
    lower: string -> string,
    parseInt: string -> Option<int>,
    showInt: int -> string,
    isFloat: real -> bool,
    toFloat: int -> Option<real>,
    parseFloat: string -> Option<real>,
    showFloat: real -> string,
    loadList: string -> Option<seq<string>>,
    dumpList: seq<string> -> string,
    reprList: seq<string> -> string,
    seal: string -> string,
    unseal: string -> Option<string>)

  const ENC_PREFIX := "enc:v1:"

  // ---- Strings ----

  function StripLeft(x: Text, s: string): string {
    if s != "" && x.isSpace(s[0]) then StripLeft(x, s[1..]) else s
  }

  function StripRight(x: Text, s: string): string {
    if s != "" && x.isSpace(s[|s| - 1]) then StripRight(x, s[..|s| - 1]) else s
  }

  function Strip(x: Text, s: string): string {
    StripRight(x, StripLeft(x, s))
  }

  predicate Stripped(x: Text, s: string) {
    s == "" || (!x.isSpace(s[0]) && !x.isSpace(s[|s| - 1]))
  }

  lemma {:induction false} StripLeftEnd(x: Text, s: string)
    ensures StripLeft(x, s) == "" || !x.isSpace(StripLeft(x, s)[0])
  {
    if s != "" && x.isSpace(s[0]) {
      StripLeftEnd(x, s[1..]);
    }
  }

  lemma {:induction false} StripRightEnds(x: Text, s: string)
    requires s == "" || !x.isSpace(s[0])
    ensures Stripped(x, StripRight(x, s))
  {
    if s != "" && x.isSpace(s[|s| - 1]) {
      StripRightEnds(x, s[..|s| - 1]);
    }
  }

  lemma StripEnds(x: Text, s: string)
    ensures Stripped(x, Strip(x, s))
    ensures Stripped(x, s) ==> Strip(x, s) == s
  {
    StripLeftEnd(x, s);
    StripRightEnds(x, StripLeft(x, s));
  }

  predicate Blank(x: Text, s: string) {
    forall c :: c in s ==> x.isSpace(c)
  }

  lemma {:induction false} StripLeftTrims(x: Text, s: string) returns (a: string)
    ensures Blank(x, a) && s == a + StripLeft(x, s)
  {
    a := "";
    if s != "" && x.isSpace(s[0]) {
      a := StripLeftTrims(x, s[1..]);
      a := [s[0]] + a;
      assert s == [s[0]] + s[1..];
    }
  }

  lemma {:induction false} StripRightTrims(x: Text, s: string) returns (b: string)
    ensures Blank(x, b) && s == StripRight(x, s) + b
  {
    b := "";
    if s != "" && x.isSpace(s[|s| - 1]) {
      b := StripRightTrims(x, s[..|s| - 1]);
      b := b + [s[|s| - 1]];
      assert s == s[..|s| - 1] + [s[|s| - 1]];
    }
  }

  /** Only blanks are cut off, and all of them. */
  lemma StripTrims(x: Text, s: string) returns (a: string, b: string)
    ensures Blank(x, a) && Blank(x, b) && s == a + Strip(x, s) + b && Stripped(x, Strip(x, s))
  {
    a := StripLeftTrims(x, s);
    b := StripRightTrims(x, StripLeft(x, s));
    StripEnds(x, s);
  }

  function StripAll(x: Text, parts: seq<string>): seq<string> {
    if parts == [] then []
    else
      var item := Strip(x, parts[0]);
      (if item == "" then [] else [item]) + StripAll(x, parts[1..])
  }

  // ---- Coercion ----

  /** Python's str(). */
  function Str(x: Text, v: Value): string {
    match v
    case NoValue => "None"
    case BoolValue(b) => if b then "True" else "False"
    case IntValue(i) => x.showInt(i)
    case FloatValue(r) => x.showFloat(r)
    case ListValue(l) => x.reprList(l)
    case StrValue(s) => s
  }

  predicate Falsy(v: Value) {
    || v == NoValue || v == BoolValue(false) || v == IntValue(0) || v == FloatValue(0.0)
    || v == ListValue([]) || v == StrValue("")
  }

  function AsBool(x: Text, v: Value): bool {
    if v.BoolValue? then v.b else x.lower(Strip(x, Str(x, v))) in ["1", "true", "yes", "on"]
  }

  /** Python's int(), which truncates floats; None where it raises. */
  function AsInt(x: Text, v: Value): Option<int> {
    match v
    case BoolValue(b) => Some(if b then 1 else 0)
    case IntValue(i) => Some(i)
    case FloatValue(r) => Some(if r >= 0.0 then r.Floor else -(-r).Floor)
    case StrValue(s) => x.parseInt(s)
    case _ => None
  }

  /** Python's float(); None where it raises. */
  function AsFloat(x: Text, v: Value): Option<real> {
    match v
    case BoolValue(b) => Some(if b then 1.0 else 0.0)
    case IntValue(i) => x.toFloat(i)
    case FloatValue(r) => Some(r)
    case StrValue(s) => x.parseFloat(s)
    case _ => None
  }

  /** A list as it is; else a JSON array, if the text is one; else the items between commas. */
  function AsList(x: Text, v: Value): seq<string> {
    if v.ListValue? then v.items
    else
      var s := Strip(x, if Falsy(v) then "" else Str(x, v));
      if s == "" then []
      else if s[0] == '[' && x.loadList(s).Some? then x.loadList(s).value
      else StripAll(x, Split(s, ','))
  }

  /** A value of any type as one of the given type; None where Python raises. */
  function Coerce(x: Text, v: Value, t: ValueType): Option<Value> {
    if v == NoValue then Some(NoValue)
    else match t
      case BoolType => Some(BoolValue(AsBool(x, v)))
      case IntType => (match AsInt(x, v) case Some(i) => Some(IntValue(i)) case None => None)
      case FloatType => (match AsFloat(x, v) case Some(r) => Some(FloatValue(r)) case None => None)
      case ListType => Some(ListValue(AsList(x, v)))
      case StrType => Some(StrValue(Str(x, v)))
  }

  /** The string put in the environment, or stored, for a value under a key of type t. */
  function Render(x: Text, v: Value, t: ValueType): string {
    if v == NoValue then ""
    else match t
      case BoolType => if AsBool(x, v) then "true" else "false"
      case ListType => x.dumpList(AsList(x, v))
      case _ => Str(x, v)
  }

  // ---- What an administrator may set ----

  predicate Within(lo: Option<real>, hi: Option<real>, r: real) {
    (lo.Some? ==> lo.value <= r) && (hi.Some? ==> r <= hi.value)
  }

  predicate InRange(spec: Spec, v: Value) {
    match v
    case IntValue(i) => Within(spec.min, spec.max, i as real)
    case FloatValue(r) => Within(spec.min, spec.max, r)
    case _ => true
  }

  /** The items stripped, without blanks, each at its first occurrence. */
  function Cleaned(x: Text, items: seq<string>): seq<string> {
    if items == [] then []
    else
      var before, item := Cleaned(x, items[..|items| - 1]), Strip(x, items[|items| - 1]);
      if item != "" && item !in before then before + [item] else before
  }

  method Clean(x: Text, items: seq<string>) returns (cleaned: seq<string>)
    ensures cleaned == Cleaned(x, items)
  {
    cleaned := [];
    var seen: set<string> := {};
    for i := 0 to |items|
      invariant cleaned == Cleaned(x, items[..i])
      invariant forall s :: s in seen <==> s in cleaned
    {
      assert items[..i + 1][..i] == items[..i];
      var item := Strip(x, items[i]);
      if item != "" && item !in seen {
        seen := seen + {item};
        cleaned := cleaned + [item];
      }
    }
    assert items[..|items|] == items;
  }

  ghost predicate IsClean(x: Text, items: seq<string>) {
    && (forall i :: 0 <= i < |items| ==> items[i] != "" && Stripped(x, items[i]))
    && (forall i, j :: 0 <= i < j < |items| ==> items[i] != items[j])
  }

  /** What is left is exactly the non-blank items, stripped, each once. */
  lemma {:induction false} CleanedIsClean(x: Text, items: seq<string>)
    ensures IsClean(x, Cleaned(x, items))
    ensures forall s :: s in Cleaned(x, items) <==> s != "" && exists i :: 0 <= i < |items| && Strip(x, items[i]) == s
  {
    if items != [] {
      var init, last := items[..|items| - 1], items[|items| - 1];
      CleanedIsClean(x, init);
      StripEnds(x, last);
      forall s | s in Cleaned(x, init) ensures exists i :: 0 <= i < |items| && Strip(x, items[i]) == s {
        var i :| 0 <= i < |init| && Strip(x, init[i]) == s;
        assert items[i] == init[i];
      }
    }
  }

  /** A clean list is stored as it is, so submitting a stored list again changes nothing. */
  lemma {:induction false} CleanStays(x: Text, items: seq<string>)
    requires IsClean(x, items)
    ensures Cleaned(x, items) == items
  {
    if items != [] {
      var init, last := items[..|items| - 1], items[|items| - 1];
      CleanStays(x, init);
      StripEnds(x, last);
      assert items == init + [last];
    }
  }

  /** coerce_input; None where it raises. */
  function CoerceInput(x: Text, spec: Spec, input: Value): Option<Value> {
    match Coerce(x, input, spec.valueType)
    case None => None
    case Some(v) =>
      if !InRange(spec, v) then None
      else if !spec.valueType.ListType? then Some(v)
      else if v.ListValue? then Some(ListValue(Cleaned(x, v.items)))
      else None
  }

  /** The row an administrator's edit stores. */
  function StoredRow(x: Text, spec: Spec, v: Value): Row {
    Row(if spec.sensitive then ENC_PREFIX + x.seal(Str(x, v)) else Render(x, v, spec.valueType),
        spec.valueType, spec.sensitive)
  }

  /** Values without the prefix are taken as they are. */
  function Decrypt(x: Text, stored: string): Option<string> {
    if ENC_PREFIX <= stored then x.unseal(stored[|ENC_PREFIX|..]) else Some(stored)
  }

  function DecodeRow(x: Text, row: Row): Option<Value> {
    match if row.isSecret then Decrypt(x, row.value) else Some(row.value)
    case Some(raw) => Coerce(x, StrValue(raw), row.valueType)
    case None => None
  }

  // ---- What an input becomes ----

  /** Text between commas is read item by item, blanks left out. */
  lemma ListFromText(x: Text, parts: seq<string>)
    requires parts != [] && forall i :: 0 <= i < |parts| ==> ',' !in parts[i]
    requires var s := Join(parts, ','); s != "" && s[0] != '[' && Stripped(x, s)
    ensures AsList(x, StrValue(Join(parts, ','))) == StripAll(x, parts)
  {
    SplitJoined(parts, ',');
    StripEnds(x, Join(parts, ','));
  }

  lemma {:induction false} StripAllMembers(x: Text, parts: seq<string>)
    ensures forall s :: s in StripAll(x, parts) <==> s != "" && exists i :: 0 <= i < |parts| && Strip(x, parts[i]) == s
  {
    if parts != [] {
      var item := Strip(x, parts[0]);
      StripAllMembers(x, parts[1..]);
      forall s | s in StripAll(x, parts[1..]) ensures exists i :: 0 <= i < |parts| && Strip(x, parts[i]) == s {
        var i :| 0 <= i < |parts[1..]| && Strip(x, parts[1..][i]) == s;
        assert parts[i + 1] == parts[1..][i];
      }
      forall s | s != "" && exists i :: 0 <= i < |parts| && Strip(x, parts[i]) == s
        ensures s in StripAll(x, parts)
      {
        var i :| 0 <= i < |parts| && Strip(x, parts[i]) == s;
        assert i > 0 ==> parts[1..][i - 1] == parts[i];
      }
    }
  }

  /** The bounds of the registry hold of the number. */
  predicate Bounded(spec: Spec, r: real) {
    !(spec.min.Some? && r < spec.min.value) && !(spec.max.Some? && r > spec.max.value)
  }

  /** An input of the key's own type is kept as it is: a number exactly when it is within its bounds, a list cleaned. */
  lemma InputIsKept(x: Text, spec: Spec, input: Value)
    ensures spec.valueType.BoolType? && input.BoolValue? ==> CoerceInput(x, spec, input) == Some(input)
    ensures spec.valueType.StrType? && input.StrValue? ==> CoerceInput(x, spec, input) == Some(input)
    ensures spec.valueType.IntType? && input.IntValue? ==>
              CoerceInput(x, spec, input) == if Bounded(spec, input.i as real) then Some(input) else None
    ensures spec.valueType.FloatType? && input.FloatValue? ==>
              CoerceInput(x, spec, input) == if Bounded(spec, input.r) then Some(input) else None
    ensures spec.valueType.ListType? && input.ListValue? && IsClean(x, input.items) ==>
              CoerceInput(x, spec, input) == Some(input)
  {
    if input.ListValue? && IsClean(x, input.items) {
      CleanStays(x, input.items);
    }
  }

  /** Text is read by its key's type: the four words that mean true, a number that parses and is within its bounds. */
  lemma TextInput(x: Text, spec: Spec, s: string)
    ensures spec.valueType.BoolType? ==>
              var word := x.lower(Strip(x, s));
              CoerceInput(x, spec, StrValue(s))
              == Some(BoolValue(word == "1" || word == "true" || word == "yes" || word == "on"))
    ensures spec.valueType.IntType? ==>
              CoerceInput(x, spec, StrValue(s))
              == if x.parseInt(s).Some? && Bounded(spec, x.parseInt(s).value as real)
                 then Some(IntValue(x.parseInt(s).value)) else None
    ensures spec.valueType.FloatType? ==>
              CoerceInput(x, spec, StrValue(s))
              == if x.parseFloat(s).Some? && Bounded(spec, x.parseFloat(s).value)
                 then Some(FloatValue(x.parseFloat(s).value)) else None
  {
  }

  /** Inputs of another type: booleans count as 1 and 0, an integer is made a float, a list is no number, and what
      Python takes for false is the empty list. */
  lemma MixedInput(x: Text, spec: Spec, b: bool, i: int, l: seq<string>)
    ensures spec.valueType.IntType? && Bounded(spec, (if b then 1 else 0) as real) ==>
              CoerceInput(x, spec, BoolValue(b)) == Some(IntValue(if b then 1 else 0))
    ensures spec.valueType.FloatType? && x.toFloat(i).Some? && Bounded(spec, x.toFloat(i).value) ==>
              CoerceInput(x, spec, IntValue(i)) == Some(FloatValue(x.toFloat(i).value))
    ensures spec.valueType.IntType? || spec.valueType.FloatType? ==> CoerceInput(x, spec, ListValue(l)).None?
    ensures spec.valueType.ListType? ==>
              && CoerceInput(x, spec, BoolValue(false)) == Some(ListValue([]))
              && CoerceInput(x, spec, IntValue(0)) == Some(ListValue([]))
              && CoerceInput(x, spec, StrValue("")) == Some(ListValue([]))
  {
    assert Strip(x, "") == "";
  }

  /** A secret stored without the prefix of ciphertexts is read as it stands. */
  lemma PlainSecretReads(x: Text, row: Row)
    requires row.isSecret && row.valueType.StrType? && !(ENC_PREFIX <= row.value)
    ensures DecodeRow(x, row) == Some(StrValue(row.value))
  {
  }

  /** A float given for an integer is cut off towards zero. */
  lemma FloatForInteger(x: Text, spec: Spec, r: real)
    requires spec.valueType.IntType?
    ensures var v := CoerceInput(x, spec, FloatValue(r));
            v.Some? ==>
              && v.value.IntValue?
              && (r >= 0.0 ==> v.value.i as real <= r < v.value.i as real + 1.0)
              && (r < 0.0 ==> v.value.i as real - 1.0 < r <= v.value.i as real)
  {
  }

  // ---- What is set is what every pod reads ----

  /** The conversions invert each other where Python and its libraries promise it: str() of an integer or of a float,
      json.dumps, and Fernet. */
  ghost predicate RoundTrips(x: Text) {
    && (forall i :: x.parseInt(x.showInt(i)) == Some(i))
    && (forall r :: x.isFloat(r) ==> x.parseFloat(x.showFloat(r)) == Some(r))
    && (forall s :: x.parseFloat(s).Some? ==> x.isFloat(x.parseFloat(s).value))
    && (forall i :: x.toFloat(i).Some? ==> x.isFloat(x.toFloat(i).value))
    && x.isFloat(0.0) && x.isFloat(1.0)
    && (forall l :: x.dumpList(l) != "" && Stripped(x, x.dumpList(l)) && x.dumpList(l)[0] == '[')
    && (forall l :: x.loadList(x.dumpList(l)) == Some(l))
    && x.lower("true") == "true" && x.lower("false") == "false"
    && Stripped(x, "true") && Stripped(x, "false")
    && (forall s :: x.unseal(x.seal(s)) == Some(s))
  }

  predicate HasType(x: Text, v: Value, t: ValueType) {
    match t
    case BoolType => v.BoolValue?
    case IntType => v.IntValue?
    case FloatType => v.FloatValue? && x.isFloat(v.r)
    case ListType => v.ListValue?
    case StrType => v.StrValue?
  }

  /** What an administrator's input becomes: a value of the key's type within its range, or null if it was null. */
  lemma InputHasType(x: Text, spec: Spec, input: Value)
    requires RoundTrips(x) && (input.FloatValue? ==> x.isFloat(input.r))
    ensures var v := CoerceInput(x, spec, input);
            v.Some? ==>
              && (v.value.IntValue? ==> Bounded(spec, v.value.i as real))
              && (v.value.FloatValue? ==> Bounded(spec, v.value.r))
              && (input == NoValue ==> v.value == NoValue && !spec.valueType.ListType?)
              && (input != NoValue ==> HasType(x, v.value, spec.valueType))
              && (spec.valueType.ListType? ==> v.value.ListValue? && IsClean(x, v.value.items))
  {
    if spec.valueType.ListType? && input != NoValue {
      CleanedIsClean(x, AsList(x, input));
    }
  }

  lemma PlainRowReads(x: Text, v: Value, t: ValueType)
    requires RoundTrips(x) && HasType(x, v, t)
    ensures Coerce(x, StrValue(Render(x, v, t)), t) == Some(v)
  {
    match v
    case BoolValue(b) =>
      StripEnds(x, "true");
      StripEnds(x, "false");
    case IntValue(i) => assert x.parseInt(x.showInt(i)) == Some(i);
    case FloatValue(r) => assert x.parseFloat(x.showFloat(r)) == Some(r);
    case ListValue(l) => StripEnds(x, x.dumpList(l));
    case StrValue(s) =>
  }

  lemma SecretRowReads(x: Text, s: string)
    requires RoundTrips(x)
    ensures Decrypt(x, ENC_PREFIX + x.seal(s)) == Some(s)
  {
    assert (ENC_PREFIX + x.seal(s))[|ENC_PREFIX|..] == x.seal(s);
  }

  /** Every pod decodes exactly the value that was set, whatever its type and encrypted or not, if and only if the value
      sent was not null. The sensitive keys are all of type str. */
  lemma SetThenDecode(x: Text, spec: Spec, input: Value)
    requires RoundTrips(x) && (input.FloatValue? ==> x.isFloat(input.r))
    requires (spec.sensitive ==> spec.valueType.StrType?) && CoerceInput(x, spec, input).Some?
    ensures var v := CoerceInput(x, spec, input).value;
            DecodeRow(x, StoredRow(x, spec, v)) == Some(v) <==> input != NoValue
  {
    var v := CoerceInput(x, spec, input).value;
    InputHasType(x, spec, input);
    if spec.sensitive {
      SecretRowReads(x, Str(x, v));
    } else if input != NoValue {
      PlainRowReads(x, v, spec.valueType);
    }
  }

  /** A null that is accepted for a secret is read back as the text None. */
  lemma NullSecretReads(x: Text, spec: Spec)
    requires RoundTrips(x) && spec.sensitive && spec.valueType.StrType?
    ensures CoerceInput(x, spec, NoValue) == Some(NoValue)
    ensures DecodeRow(x, StoredRow(x, spec, NoValue)) == Some(StrValue("None"))
  {
    SecretRowReads(x, "None");
  }

  /** A secret that holds a NUL is accepted and reads back as it was set. */
  lemma NulSecretIsAccepted(x: Text, spec: Spec, s: string)
    requires RoundTrips(x) && spec.sensitive && spec.valueType.StrType? && '\0' in s
    ensures CoerceInput(x, spec, StrValue(s)) == Some(StrValue(s))
    ensures DecodeRow(x, StoredRow(x, spec, StrValue(s))) == Some(StrValue(s))
    ensures '\0' in Render(x, StrValue(s), spec.valueType)
  {
    SecretRowReads(x, s);
  }

  // ---- The process ----

  datatype Pod = Pod(
    env: map<Key, string>,
    settings: map<Key, Value>,
    baseline: map<Key, Value>,
    baselineReady: bool,
    overrides: map<Key, Value>,
    applied: int,
    configReady: bool)

  /** The overrides a pod can use: editable keys whose row decodes. */
  function Decoded(x: Text, reg: Registry, table: Table): map<Key, Value> {
    map k | k in table && k in reg && DecodeRow(x, table[k]).Some? :: DecodeRow(x, table[k]).value
  }

  function BaselineValue(x: Text, spec: Spec, env: map<Key, string>, settings: map<Key, Value>, k: Key): Option<Value> {
    if spec.hasField then Some(if k in settings then settings[k] else NoValue)
    else if k !in env || env[k] == "" then
      Some(match spec.valueType case ListType => ListValue([]) case StrType => StrValue("") case _ => NoValue)
    else Coerce(x, StrValue(env[k]), spec.valueType)
  }

  /** What the deployment set: the settings attribute; else the environment's text read by type; else nothing. */
  lemma BaselineIsDeployed(x: Text, spec: Spec, env: map<Key, string>, settings: map<Key, Value>, k: Key)
    ensures var v := BaselineValue(x, spec, env, settings, k);
            && (spec.hasField && k in settings ==> v == Some(settings[k]))
            && (!spec.hasField && k in env && env[k] != "" && spec.valueType.StrType? ==> v == Some(StrValue(env[k])))
            && (!spec.hasField && k in env && env[k] != "" ==> v == Coerce(x, StrValue(env[k]), spec.valueType))
            && (!spec.hasField && (k !in env || env[k] == "") ==>
                  v.Some? && Render(x, v.value, spec.valueType)
                             == if spec.valueType.ListType? then x.dumpList([]) else "")
  {
  }

  /** The baseline can be captured: no environment value makes the coercion raise. */
  predicate Capturable(x: Text, reg: Registry, env: map<Key, string>, settings: map<Key, Value>) {
    forall k :: k in reg ==> BaselineValue(x, reg[k], env, settings, k).Some?
  }

  function BaselineOf(x: Text, reg: Registry, env: map<Key, string>, settings: map<Key, Value>): map<Key, Value>
    requires Capturable(x, reg, env, settings)
  {
    map k | k in reg :: BaselineValue(x, reg[k], env, settings, k).value
  }

  function Effective(baseline: map<Key, Value>, overrides: map<Key, Value>, k: Key): Value {
    if k in overrides then overrides[k] else if k in baseline then baseline[k] else NoValue
  }

  /** What the environment should hold for a key. */
  function EnvValue(x: Text, reg: Registry, baseline: map<Key, Value>, overrides: map<Key, Value>, k: Key): string
    requires k in reg
  {
    Render(x, Effective(baseline, overrides, k), reg[k].valueType)
  }

  /** os.environ refuses a value that holds a NUL. */
  predicate Settable(s: string) {
    '\0' !in s
  }

  predicate Applicable(x: Text, reg: Registry, baseline: map<Key, Value>, overrides: map<Key, Value>) {
    forall k :: k in reg ==> Settable(EnvValue(x, reg, baseline, overrides, k))
  }

  /** One key of the environment and, where mirrored, of the settings. */
  function ApplyKey(x: Text, reg: Registry, pod: Pod, overrides: map<Key, Value>, k: Key): Pod
    requires k in reg
  {
    var v := Effective(pod.baseline, overrides, k);
    pod.(env := pod.env[k := Render(x, v, reg[k].valueType)],
         settings := if reg[k].hasField then pod.settings[k := v] else pod.settings)
  }

  /** Key k of the process shows exactly the given overrides over its baseline. */
  predicate Shows(x: Text, reg: Registry, pod: Pod, overrides: map<Key, Value>, k: Key)
    requires k in reg
  {
    var v := Effective(pod.baseline, overrides, k);
    && k in pod.env && pod.env[k] == Render(x, v, reg[k].valueType)
    && (reg[k].hasField ==> k in pod.settings && pod.settings[k] == v)
  }

  ghost predicate ShowsAll(x: Text, reg: Registry, pod: Pod, overrides: map<Key, Value>) {
    forall k :: k in reg ==> Shows(x, reg, pod, overrides, k)
  }

  /** Outside the registry, nothing differs. */
  ghost predicate SameElsewhere(reg: Registry, a: Pod, b: Pod) {
    && a.env.Keys - reg.Keys == b.env.Keys - reg.Keys
    && (forall k :: k in a.env && k !in reg ==> k in b.env && a.env[k] == b.env[k])
    && (forall k :: k !in reg || !reg[k].hasField ==> (k in a.settings <==> k in b.settings))
    && (forall k :: k in a.settings && (k !in reg || !reg[k].hasField) ==>
          k in b.settings && a.settings[k] == b.settings[k])
  }

  function SnapshotIn(x: Text, reg: Registry, pod: Pod): Pod
    requires Capturable(x, reg, pod.env, pod.settings)
  {
    if pod.baselineReady then pod
    else pod.(baseline := pod.baseline + BaselineOf(x, reg, pod.env, pod.settings), baselineReady := true)
  }

  /** The registered keys but those in todo have been captured, over the baseline of first. */
  ghost predicate PartlyCaptured(x: Text, reg: Registry, first: Pod, baseline: map<Key, Value>, todo: set<Key>) {
    && baseline.Keys == first.baseline.Keys + (reg.Keys - todo)
    && (forall k :: k in reg && k !in todo ==>
          Some(baseline[k]) == BaselineValue(x, reg[k], first.env, first.settings, k))
    && (forall k :: k in first.baseline && (k !in reg || k in todo) ==> baseline[k] == first.baseline[k])
  }

  /** The capture stopped at a key whose value cannot be coerced. */
  ghost predicate CaptureStopped(x: Text, reg: Registry, first: Pod, baseline: map<Key, Value>) {
    exists todo, k ::
      && PartlyCaptured(x, reg, first, baseline, todo) && k in todo && todo <= reg.Keys
      && BaselineValue(x, reg[k], first.env, first.settings, k).None?
  }

  lemma CaptureOne(x: Text, reg: Registry, first: Pod, baseline: map<Key, Value>, todo: set<Key>, k: Key, v: Value)
    requires PartlyCaptured(x, reg, first, baseline, todo) && k in todo && k in reg
    requires BaselineValue(x, reg[k], first.env, first.settings, k) == Some(v)
    ensures PartlyCaptured(x, reg, first, baseline[k := v], todo - {k})
  {
    assert baseline[k := v].Keys == baseline.Keys + {k};
    assert reg.Keys - (todo - {k}) == reg.Keys - todo + {k};
  }

  lemma CaptureAll(x: Text, reg: Registry, first: Pod, baseline: map<Key, Value>)
    requires PartlyCaptured(x, reg, first, baseline, {})
    ensures Capturable(x, reg, first.env, first.settings)
    ensures baseline == first.baseline + BaselineOf(x, reg, first.env, first.settings)
  {
    forall k | k in reg ensures BaselineValue(x, reg[k], first.env, first.settings, k).Some? {
      assert Some(baseline[k]) == BaselineValue(x, reg[k], first.env, first.settings, k);
    }
    var all := first.baseline + BaselineOf(x, reg, first.env, first.settings);
    assert baseline.Keys == all.Keys;
    forall k | k in baseline ensures baseline[k] == all[k] {
      assert k in reg ==> Some(baseline[k]) == BaselineValue(x, reg[k], first.env, first.settings, k);
    }
  }

  /** Key k is in both as it was. */
  predicate SameAt(a: Pod, b: Pod, k: Key) {
    && (k in a.env <==> k in b.env) && (k in a.env ==> a.env[k] == b.env[k])
    && (k in a.settings <==> k in b.settings) && (k in a.settings ==> a.settings[k] == b.settings[k])
  }

  /** An application that stopped before the last key: every key shows the overrides or is as it was. */
  ghost predicate PartlyApplied(x: Text, reg: Registry, first: Pod, pod: Pod, overrides: map<Key, Value>) {
    && pod == first.(env := pod.env, settings := pod.settings) && SameElsewhere(reg, first, pod)
    && forall k :: k in reg ==> Shows(x, reg, pod, overrides, k) || SameAt(first, pod, k)
  }

  /** What reload_overrides leaves behind, given what it read. */
  ghost predicate IsReload(x: Text, reg: Registry, pod: Pod, gen: Option<int>, table: Table, pod': Pod) {
    && ShowsAll(x, reg, pod', Decoded(x, reg, table))
    && SameElsewhere(reg, pod, pod')
    && pod'.baseline == pod.baseline && pod'.baselineReady == pod.baselineReady
    && pod'.overrides == Decoded(x, reg, table)
    && pod'.applied == (if gen.Some? then gen.value else pod.applied)
    && pod'.configReady
  }

  /** What it leaves behind when a value could not be put in the environment: the generation is not recorded. */
  ghost predicate IsFailedReload(x: Text, reg: Registry, pod: Pod, table: Table, pod': Pod) {
    PartlyApplied(x, reg, pod.(overrides := Decoded(x, reg, table)), pod', Decoded(x, reg, table))
  }

  /** Applying one key shows that key, keeps the keys already shown, and touches nothing else. */
  lemma ApplyKeyKeeps(x: Text, reg: Registry, first: Pod, pod: Pod, overrides: map<Key, Value>, k: Key, todo: set<Key>)
    requires k in reg && SameElsewhere(reg, first, pod)
    requires forall n :: n in reg && n !in todo ==> Shows(x, reg, pod, overrides, n)
    ensures SameElsewhere(reg, first, ApplyKey(x, reg, pod, overrides, k))
    ensures forall n :: n in reg && n !in todo - {k} ==>
              Shows(x, reg, ApplyKey(x, reg, pod, overrides, k), overrides, n)
  {
    var pod' := ApplyKey(x, reg, pod, overrides, k);
    assert pod'.env.Keys == pod.env.Keys + {k};
    forall n | n in reg && n !in todo - {k} ensures Shows(x, reg, pod', overrides, n) {
      assert n != k ==> Shows(x, reg, pod, overrides, n);
    }
  }

  lemma ApplyKeyKeepsOthers(x: Text, reg: Registry, first: Pod, pod: Pod, overrides: map<Key, Value>, k: Key,
                            todo: set<Key>)
    requires k in reg && forall n :: n in todo ==> SameAt(first, pod, n)
    ensures forall n :: n in todo - {k} ==> SameAt(first, ApplyKey(x, reg, pod, overrides, k), n)
  {
    forall n | n in todo - {k} ensures SameAt(first, ApplyKey(x, reg, pod, overrides, k), n) {
      assert SameAt(first, pod, n);
    }
  }

  class ConfigPod {
    const text: Text
    const registry: Registry
    var pod: Pod

    constructor (text: Text, registry: Registry, env: map<Key, string>, settings: map<Key, Value>)
      ensures this.text == text && this.registry == registry
      ensures pod == Pod(env, settings, map[], false, map[], -1, false)
    {
      this.text, this.registry := text, registry;
      pod := Pod(env, settings, map[], false, map[], -1, false);
    }

    /** Captures the baseline once; later calls find it captured and change nothing. Not ok: a coercion raised; the
        baseline then holds what was captured before, over what it held, and is not marked as captured. */
    method SnapshotBaseline() returns (ok: bool)
      modifies this
      ensures ok <==> old(pod).baselineReady || Capturable(text, registry, old(pod).env, old(pod).settings)
      ensures old(pod).baselineReady ==> pod == old(pod)
      ensures ok && !old(pod).baselineReady ==> pod == SnapshotIn(text, registry, old(pod))
      ensures !ok ==> pod == old(pod).(baseline := pod.baseline)
      ensures !ok ==> CaptureStopped(text, registry, old(pod), pod.baseline)
    {
      if pod.baselineReady {
        return true;
      }
      var todo := registry.Keys;
      while todo != {}
        invariant todo <= registry.Keys && pod == old(pod).(baseline := pod.baseline)
        invariant PartlyCaptured(text, registry, old(pod), pod.baseline, todo)
        decreases todo
      {
        var k :| k in todo;
        match BaselineValue(text, registry[k], pod.env, pod.settings, k) {
          case None => return false;
          case Some(v) =>
            CaptureOne(text, registry, old(pod), pod.baseline, todo, k, v);
            pod := pod.(baseline := pod.baseline[k := v]);
        }
        todo := todo - {k};
      }
      CaptureAll(text, registry, old(pod), pod.baseline);
      pod := pod.(baselineReady := true);
      return true;
    }

    /** Not ok: some value could not be put in the environment. */
    method ApplyState(overrides: map<Key, Value>) returns (ok: bool)
      modifies this
      ensures ok <==> Applicable(text, registry, old(pod).baseline, overrides)
      ensures ok ==> ShowsAll(text, registry, pod, overrides)
      ensures PartlyApplied(text, registry, old(pod), pod, overrides)
    {
      var todo := registry.Keys;
      while todo != {}
        invariant todo <= registry.Keys
        invariant pod == old(pod).(env := pod.env, settings := pod.settings)
        invariant forall k :: k in registry && k !in todo ==> Shows(text, registry, pod, overrides, k)
        invariant forall k :: k in registry && k !in todo ==>
                    Settable(EnvValue(text, registry, pod.baseline, overrides, k))
        invariant forall k :: k in todo ==> SameAt(old(pod), pod, k)
        invariant SameElsewhere(registry, old(pod), pod)
        decreases todo
      {
        var k :| k in todo;
        if !Settable(EnvValue(text, registry, pod.baseline, overrides, k)) {
          return false;
        }
        ApplyKeyKeeps(text, registry, old(pod), pod, overrides, k, todo);
        ApplyKeyKeepsOthers(text, registry, old(pod), pod, overrides, k, todo);
        pod := ApplyKey(text, registry, pod, overrides, k);
        todo := todo - {k};
      }
      return true;
    }

    /** The loop over the rows read; a key occurs once, the column being the primary key. */
    method Decode(rows: seq<(Key, Row)>, ghost table: Table) returns (overrides: map<Key, Value>)
      requires forall i :: 0 <= i < |rows| ==> rows[i].0 in table && table[rows[i].0] == rows[i].1
      requires forall k :: k in table ==> (k, table[k]) in rows
      ensures overrides == Decoded(text, registry, table)
    {
      overrides := map[];
      ghost var all := Decoded(text, registry, table);
      for i := 0 to |rows|
        invariant forall k :: k in overrides ==> k in all && overrides[k] == all[k]
        invariant forall j :: 0 <= j < i && rows[j].0 in all ==> rows[j].0 in overrides
      {
        var (k, row) := rows[i];
        if k in registry {
          match DecodeRow(text, row)
          case Some(v) => overrides := overrides[k := v];
          case None =>
        }
      }
      forall k | k in all ensures k in overrides {
        var i :| 0 <= i < |rows| && rows[i] == (k, table[k]);
      }
    }

    /** A reload in which both reads return before anybody else commits. Not ok: it raised before recording. */
    method ReloadOverrides(gen: Option<int>, rows: seq<(Key, Row)>, ghost table: Table) returns (ok: bool)
      requires forall i :: 0 <= i < |rows| ==> rows[i].0 in table && table[rows[i].0] == rows[i].1
      requires forall k :: k in table ==> (k, table[k]) in rows
      modifies this
      ensures ok <==> Applicable(text, registry, old(pod).baseline, Decoded(text, registry, table))
      ensures ok ==> IsReload(text, registry, old(pod), gen, table, pod)
      ensures !ok ==> IsFailedReload(text, registry, old(pod), table, pod)
    {
      var overrides := Decode(rows, table);
      pod := pod.(overrides := overrides);
      ok := ApplyState(overrides);
      if ok {
        pod := pod.(applied := if gen.Some? then gen.value else pod.applied, configReady := true);
      }
    }

    /** One pass of the sync loop: reload if the generation differs from the recorded one. A reload that raises is
        caught, and nothing is recorded. */
    method SyncOnce(gen: Option<int>, rows: seq<(Key, Row)>, ghost table: Table)
      requires forall i :: 0 <= i < |rows| ==> rows[i].0 in table && table[rows[i].0] == rows[i].1
      requires forall k :: k in table ==> (k, table[k]) in rows
      modifies this
      ensures gen.None? || gen.value == old(pod).applied ==> pod == old(pod)
      ensures gen.Some? && gen.value != old(pod).applied ==>
                if Applicable(text, registry, old(pod).baseline, Decoded(text, registry, table))
                then IsReload(text, registry, old(pod), gen, table, pod)
                else IsFailedReload(text, registry, old(pod), table, pod)
    {
      if gen.Some? && gen.value != pod.applied {
        var _ := ReloadOverrides(gen, rows, table);
      }
    }
  }
}
