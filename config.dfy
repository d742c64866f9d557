/** The configuration table of lib/nom/config.rb: user values read from a
    YAML file, falling back to a table of seven declared keys with defaults,
    and a prompt for the keys whose default is nil. */
module Configuration {
  import opened Common
  import opened Text
  import opened Calendar

  /** A value as YAML hands it over: a number, a string, a date or nil. */
  datatype Value = Num(x: real) | Str(s: string) | Day(d: int) | Nil

  /** The class a declared key's value is converted to. */
  datatype Kind = FloatKind | DateKind | StringKind

  /** A declared key: its default (None for Ruby's nil) and its class. */
  datatype Default = Default(value: Option<Value>, kind: Kind)

  /** The declared keys. The image viewer's default is the platform's
      opener, which is a parameter here. */
  function Defaults(viewer: string): map<string, Default> {
    map[
      "rate" := Default(Some(Num(0.5)), FloatKind),
      "goal" := Default(None, FloatKind),
      "image_viewer" := Default(Some(Str(viewer)), StringKind),
      "unit" := Default(Some(Num(1.0)), FloatKind),
      "start_date" := Default(None, DateKind),
      "balance_start" := Default(None, DateKind),
      "balance_factor" := Default(Some(Num(0.01)), FloatKind)
    ]
  }

  /** Config#has: the user set the key, or it has a non-nil default. */
  predicate Known(config: map<string, Value>, defaults: map<string, Default>, key: string) {
    key in config || (key in defaults && defaults[key].value.Some?)
  }

  /** Whether a lookup of key has to ask the user. */
  predicate Prompts(config: map<string, Value>, defaults: map<string, Default>, key: string) {
    key !in config && key in defaults && defaults[key].value.None?
  }

  /** The conversion at the end of Config#get: to_f for Float keys (nil
      reads as 0.0, a date has no to_f), a date or a parsed string for
      Date keys, the value itself for String keys. */
  function Coerce(kind: Kind, v: Value): (r: Result<Value>)
    ensures r.Ok? && kind == FloatKind ==> r.value.Num?
    ensures r.Ok? && kind == DateKind ==> r.value.Day?
    ensures kind == StringKind ==> r == Ok(v)
    ensures r.Err? <==>
      ((kind == FloatKind && v.Day?) || (kind == DateKind && !v.Day? && !(v.Str? && ParseDate(v.s).Some?)))
  {
    match kind
    case FloatKind =>
      (match v
       case Num(x) => Ok(Num(x))
       case Str(s) => Ok(Num(ToF(s)))
       case Nil => Ok(Num(0.0))
       case Day(_) => Err("undefined method 'to_f' for a Date"))
    case DateKind =>
      (match v
       case Day(d) => Ok(Day(d))
       case Str(s) =>
         (match ParseDate(s)
          case Some(d) => Ok(Day(d))
          case None => Err("invalid date"))
       case _ => Err("no implicit conversion into String"))
    case StringKind => Ok(v)
  }

  /** What a lookup yields, the table afterwards, and whether the table was
      written back to the file. */
  datatype Lookup = Lookup(result: Result<Value>, config: map<string, Value>, written: bool)

  /** Config#get as a function of the table, the declared keys, the key and
      the line the user would type (None at the end of input). */
  function GetSpec(config: map<string, Value>, defaults: map<string, Default>,
                   key: string, answer: Option<string>): Lookup
  {
    if key in config then
      if key in defaults then Lookup(Coerce(defaults[key].kind, config[key]), config, false)
      else Lookup(Err("undefined method '[]' for nil"), config, false)
    else if key in defaults then
      match defaults[key].value
      case Some(v) => Lookup(Coerce(defaults[key].kind, v), config, false)
      case None =>
        (match answer
         case None => Lookup(Err("undefined method 'chomp' for nil"), config, false)
         case Some(line) =>
           var v := Str(Chomp(line));
           Lookup(Coerce(defaults[key].kind, v), config[key := v], true))
    else Lookup(Err("Unknown configuration option"), config, false)
  }

  class Config {
    /** The user's table, as loaded and as extended by prompts. */
    var config: map<string, Value>
    /** The configuration file's contents; None while no file exists. */
    var file: Option<map<string, Value>>
    const defaults: map<string, Default>

    /** The table is what the file holds, or empty when there is no file. */
    predicate Saved()
      reads this
    {
      config == (if file.Some? then file.value else map[])
    }

    /** Config.new: the file's table if the file exists, else an empty one. */
    constructor(stored: Option<map<string, Value>>, viewer: string)
      ensures file == stored && defaults == Defaults(viewer)
      ensures config == (if stored.Some? then stored.value else map[])
      ensures Saved()
    {
      config := if stored.Some? then stored.value else map[];
      file := stored;
      defaults := Defaults(viewer);
    }

    predicate Has(key: string)
      reads this
    {
      Known(config, defaults, key)
    }

    /** Config#get: the user's value, else the default, else the user's
        answer, which is stored and written back; then converted. */
    method Get(key: string, answer: Option<string>) returns (r: Result<Value>)
      requires Saved()
      modifies this
      ensures var l := GetSpec(old(config), defaults, key, answer);
        r == l.result && config == l.config && file == (if l.written then Some(l.config) else old(file))
      ensures Saved()
    {
      var v: Value;
      if key in config {
        v := config[key];
      } else if key in defaults {
        if defaults[key].value.None? {
          if answer.None? {
            return Err("undefined method 'chomp' for nil");
          }
          config := config[key := Str(Chomp(answer.value))];
          file := Some(config);
          v := config[key];
        } else {
          v := defaults[key].value.value;
        }
      } else {
        return Err("Unknown configuration option");
      }
      if key !in defaults {
        return Err("undefined method '[]' for nil");
      }
      r := Coerce(defaults[key].kind, v);
    }
  }

  /** has is false exactly for the keys get would prompt for. */
  lemma KnownIffNoPrompt(config: map<string, Value>, defaults: map<string, Default>, key: string)
    requires key in defaults
    ensures Known(config, defaults, key) <==> !Prompts(config, defaults, key)
    ensures Known(config, defaults, key) ==>
      forall a, b :: GetSpec(config, defaults, key, a) == GetSpec(config, defaults, key, b)
    ensures !Known(config, defaults, key) ==>
      GetSpec(config, defaults, key, None) != GetSpec(config, defaults, key, Some(""))
  {
    if !Known(config, defaults, key) {
      assert GetSpec(config, defaults, key, Some("")).written;
    }
  }

  /** A user value wins over the default, whatever the default is. */
  lemma UserValueFirst(config: map<string, Value>, defaults: map<string, Default>, key: string, answer: Option<string>)
    requires key in config && key in defaults
    ensures GetSpec(config, defaults, key, answer) == Lookup(Coerce(defaults[key].kind, config[key]), config, false)
  {
  }

  /** Without a user value, a non-nil default is used and nothing is asked or stored. */
  lemma DefaultSecond(config: map<string, Value>, defaults: map<string, Default>, key: string, answer: Option<string>)
    requires key !in config && key in defaults && defaults[key].value.Some?
    ensures GetSpec(config, defaults, key, answer) ==
      Lookup(Coerce(defaults[key].kind, defaults[key].value.value), config, false)
  {
  }

  /** get completes only for declared keys; for any other key it raises
      and leaves the table alone. */
  lemma OnlyDeclared(config: map<string, Value>, defaults: map<string, Default>, key: string, answer: Option<string>)
    ensures GetSpec(config, defaults, key, answer).result.Ok? ==> key in defaults
    ensures key !in defaults ==>
      GetSpec(config, defaults, key, answer) == Lookup(GetSpec(config, defaults, key, answer).result, config, false)
  {
  }

  /** An answered prompt stores the chomped answer; afterwards has is true
      and a second get returns the same result without asking or writing. */
  lemma PromptStores(config: map<string, Value>, defaults: map<string, Default>, key: string, line: string, again: Option<string>)
    requires Prompts(config, defaults, key)
    ensures var l := GetSpec(config, defaults, key, Some(line));
      && l.config == config[key := Str(Chomp(line))] && l.written
      && Known(l.config, defaults, key)
      && GetSpec(l.config, defaults, key, again) == Lookup(l.result, l.config, false)
  {
  }

  /** Looking a key up twice gives the same answer as looking it up once,
      unless the first lookup met the end of input at its prompt. */
  lemma GetTwice(config: map<string, Value>, defaults: map<string, Default>, key: string, answer: Option<string>, again: Option<string>)
    requires !(Prompts(config, defaults, key) && answer.None?)
    ensures var l := GetSpec(config, defaults, key, answer);
      GetSpec(l.config, defaults, key, again) == Lookup(l.result, l.config, false)
  {
    if Prompts(config, defaults, key) {
      PromptStores(config, defaults, key, answer.value, again);
    }
  }

  /** goal, start_date and balance_start have nil defaults: has is true for
      them only once the user has set them; the other four are always known. */
  lemma NilDefaults(config: map<string, Value>, viewer: string)
    ensures forall k :: k in ["goal", "start_date", "balance_start"] ==>
      (Known(config, Defaults(viewer), k) <==> k in config)
    ensures forall k :: k in ["rate", "image_viewer", "unit", "balance_factor"] ==>
      Known(config, Defaults(viewer), k)
  {
  }
}
