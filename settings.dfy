/** The settings an upload runs with: `DEFAULT_SETTINGS`, overridden key by
    key from the submitted form, each form string coerced to a boolean, a
    float, an integer, or left as the string.  Python's `float()` and
    `int()` parsers enter as parameters returning None where they raise. */
module Settings {
  import opened Wrappers

  /** A settings value: the Python types the defaults and the coercion use. */
  datatype Value = Str(s: string) | Bool(b: bool) | Int(i: int) | Float(f: real)

  type FloatParser = string -> Option<real>
  type IntParser = string -> Option<int>

  /** `DEFAULT_SETTINGS` */
  const DefaultSettings: map<string, Value> := map[
    "input_file" := Str(""),
    "base_output_name" := Str("gpr_iso"),
    "use_column_indices" := Bool(true),
    "col_idx_x" := Int(0),
    "col_idx_y" := Int(1),
    "col_idx_z" := Int(7),
    "col_idx_amplitude" := Int(8),
    "threshold_percentile" := Float(0.95),
    "iso_bins" := Int(5),
    "depth_offset_per_level" := Float(0.05),
    "vr_point_size" := Float(0.015),
    "invert_depth" := Bool(true),
    "center_coordinates" := Bool(true),
    "generate_surface" := Bool(true),
    "surface_resolution" := Int(100),
    "surface_depth_slices" := Int(5),
    "surface_opacity" := Float(0.6),
    "generate_amplitude_surface" := Bool(true),
    "max_points_per_layer" := Int(500000)]

  /** `str.lower()` on ASCII letters: no upper-case letter survives, every
      upper-case letter becomes its lower-case partner, and every other
      character is left as it is. */
  function Lower(s: string): (r: string)
    ensures |r| == |s|
    ensures forall i :: 0 <= i < |r| ==> !IsUpper(r[i])
    ensures forall i :: 0 <= i < |s| && IsUpper(s[i]) ==> r[i] as int == s[i] as int + 32
    ensures forall i :: 0 <= i < |s| && !IsUpper(s[i]) ==> r[i] == s[i]
  {
    seq(|s|, i requires 0 <= i < |s| => LowerChar(s[i]))
  }

  predicate IsUpper(c: char)
  {
    'A' <= c <= 'Z'
  }

  function LowerChar(c: char): char
  {
    if IsUpper(c) then (c as int + 32) as char else c
  }

  /** One form value: `'true'`/`'false'` in any case become booleans, a
      value holding a dot goes through `float()`, any other through
      `int()`, and a value the conversion rejects stays the string. */
  function Coerce(val: string, parseFloat: FloatParser, parseInt: IntParser): (v: Value)
    ensures v.Bool? <==> Lower(val) == "true" || Lower(val) == "false"
    ensures v == Bool(true) <==> Lower(val) == "true"
    ensures v.Float? <==> Lower(val) != "true" && Lower(val) != "false" && '.' in val && parseFloat(val).Some?
    ensures v.Float? ==> v == Float(parseFloat(val).value)
    ensures v.Int? <==> Lower(val) != "true" && Lower(val) != "false" && '.' !in val && parseInt(val).Some?
    ensures v.Int? ==> v == Int(parseInt(val).value)
    ensures v.Str? <==> Lower(val) != "true" && Lower(val) != "false"
                        && (if '.' in val then parseFloat(val).None? else parseInt(val).None?)
    ensures v.Str? ==> v == Str(val)
  {
    var low := Lower(val);
    if low == "true" || low == "false" then Bool(low == "true")
    else if '.' in val then
      match parseFloat(val)
      case Some(f) => Float(f)
      case None => Str(val)
    else
      match parseInt(val)
      case Some(i) => Int(i)
      case None => Str(val)
  }

  /** A settings dictionary after the form: every key it has, overridden
      where the form has it. */
  function Overridden(defaults: map<string, Value>, form: map<string, string>,
                      parseFloat: FloatParser, parseInt: IntParser): map<string, Value>
  {
    map k | k in defaults :: if k in form then Coerce(form[k], parseFloat, parseInt) else defaults[k]
  }

  /** The settings an upload runs with. */
  function FormSettings(form: map<string, string>, parseFloat: FloatParser, parseInt: IntParser): map<string, Value>
  {
    Overridden(DefaultSettings, form, parseFloat, parseInt)
  }

  /** The dictionary once the keys in `done` have been read from the form. */
  ghost function Partly(defaults: map<string, Value>, form: map<string, string>, done: set<string>,
                        parseFloat: FloatParser, parseInt: IntParser): map<string, Value>
  {
    map k | k in defaults :: if k in done && k in form then Coerce(form[k], parseFloat, parseInt) else defaults[k]
  }

  /** Reading one more key updates that key alone. */
  lemma PartlyStep(defaults: map<string, Value>, form: map<string, string>, todo: set<string>, key: string,
                   parseFloat: FloatParser, parseInt: IntParser)
    requires key in todo && todo <= defaults.Keys
    ensures Partly(defaults, form, defaults.Keys - (todo - {key}), parseFloat, parseInt)
      == if key in form then Partly(defaults, form, defaults.Keys - todo, parseFloat, parseInt)[key := Coerce(form[key], parseFloat, parseInt)]
         else Partly(defaults, form, defaults.Keys - todo, parseFloat, parseInt)
  {
    assert defaults.Keys - (todo - {key}) == (defaults.Keys - todo) + {key};
  }

  /** Before any key is read the dictionary is the defaults; after every
      key, it is the overridden dictionary. */
  lemma PartlyEnds(defaults: map<string, Value>, form: map<string, string>,
                   parseFloat: FloatParser, parseInt: IntParser)
    ensures Partly(defaults, form, {}, parseFloat, parseInt) == defaults
    ensures Partly(defaults, form, defaults.Keys, parseFloat, parseInt) == Overridden(defaults, form, parseFloat, parseInt)
  {
  }

  /** The loop over the keys of a copy of `defaults`; the order of the
      keys does not matter, each key being read from the form alone. */
  method Override(defaults: map<string, Value>, form: map<string, string>,
                  parseFloat: FloatParser, parseInt: IntParser)
    returns (settings: map<string, Value>)
    ensures settings == Overridden(defaults, form, parseFloat, parseInt)
  {
    settings := defaults;
    var todo := defaults.Keys;
    PartlyEnds(defaults, form, parseFloat, parseInt);
    while todo != {}
      invariant todo <= defaults.Keys
      invariant settings == Partly(defaults, form, defaults.Keys - todo, parseFloat, parseInt)
      decreases |todo|
    {
      var key :| key in todo;
      PartlyStep(defaults, form, todo, key, parseFloat, parseInt);
      if key in form {
        settings := settings[key := Coerce(form[key], parseFloat, parseInt)];
      }
      todo := todo - {key};
    }
  }

  /** `settings = DEFAULT_SETTINGS.copy()` and the update from the form. */
  method ApplyForm(form: map<string, string>, parseFloat: FloatParser, parseInt: IntParser)
    returns (settings: map<string, Value>)
    ensures settings == FormSettings(form, parseFloat, parseInt)
  {
    settings := Override(DefaultSettings, form, parseFloat, parseInt);
  }

  // ------------------------------------------------------------ properties

  /** The form neither adds nor removes settings, a key the form lacks keeps
      its default, and a key the form has takes the coerced form value. */
  lemma FormSettingsKeys(form: map<string, string>, parseFloat: FloatParser, parseInt: IntParser)
    ensures var s := FormSettings(form, parseFloat, parseInt);
      && s.Keys == DefaultSettings.Keys
      && (forall k <- DefaultSettings :: k !in form ==> s[k] == DefaultSettings[k])
      && (forall k <- DefaultSettings :: k in form ==> s[k] == Coerce(form[k], parseFloat, parseInt))
  {
  }

  /** An empty form leaves the defaults. */
  lemma EmptyFormKeepsDefaults(parseFloat: FloatParser, parseInt: IntParser)
    ensures FormSettings(map[], parseFloat, parseInt) == DefaultSettings
  {
  }

  /** Lower-casing twice is lower-casing once. */
  lemma LowerIdempotent(s: string)
    ensures Lower(Lower(s)) == Lower(s)
  {
  }

  /** The comparison with `'true'` and `'false'` ignores case: two values
      that lower-case alike are both booleans, and the same boolean, or
      neither. */
  lemma CoerceIgnoresCase(a: string, b: string, parseFloat: FloatParser, parseInt: IntParser)
    requires Lower(a) == Lower(b)
    ensures Coerce(a, parseFloat, parseInt).Bool? <==> Coerce(b, parseFloat, parseInt).Bool?
    ensures Coerce(a, parseFloat, parseInt).Bool? ==> Coerce(a, parseFloat, parseInt) == Coerce(b, parseFloat, parseInt)
  {
  }
}
