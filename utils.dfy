/**
 * utils.py `get_env(key, default, cast, required)`: one environment variable, converted.
 * The caller's `default` and the converted value are both a `Value`; a raised
 * `ValueError` is a `Failure`. Logging is left out.
 */
module Utils {
  import opened Wrappers
  import opened Text
  import opened Numbers
  import opened Config

  /** The values `get_env` can hand back: a converted string, or the caller's default (possibly `None`). */
  datatype Value = NoValue | Str(s: string) | Int(i: int) | Bool(b: bool) | List(items: seq<string>)

  /** The casts the bot passes; `float` is not part of this model. */
  datatype Cast = AsStr | AsInt | AsBool | AsList

  datatype EnvError = MissingRequired(key: string)

  /** The spellings `get_env` reads as true once lower-cased. */
  predicate TruthyWord(v: string) {
    v in ["1", "true", "yes", "on"]
  }

  /** `get_env`: a missing variable raises when required and gives the default otherwise. */
  function GetEnv(env: Env, key: string, default: Value, cast: Cast, required: bool): (r: Result<Value, EnvError>)
    ensures key !in env && required ==> r == Failure(MissingRequired(key))
    ensures key !in env && !required ==> r == Success(default)
    ensures key in env ==> r.Success?
    ensures key in env && cast == AsBool ==> r == Success(Bool(TruthyWord(Lower(env[key]))))
    ensures key in env && cast == AsList ==> r == Success(List(CommaList(env[key])))
    ensures key in env && cast == AsStr ==> r == Success(Str(env[key]))
    ensures key in env && cast == AsInt ==>
      r == Success(if ParseInt(env[key]).Some? then Int(ParseInt(env[key]).value) else default)
  {
    if key !in env then
      if required then Failure(MissingRequired(key)) else Success(default)
    else
      var value := env[key];
      match cast
      case AsBool => Success(Bool(TruthyWord(Lower(value))))
      case AsList => Success(List(CommaList(value)))
      case AsStr => Success(Str(value))
      case AsInt =>
        match ParseInt(value)
        case Some(n) => Success(Int(n))
        case None => Success(default)
  }

  /** A bool read is never the default: a present variable is always true or false. */
  lemma BoolCastNeverDefaults(env: Env, key: string, default: Value, required: bool)
    requires key in env
    ensures GetEnv(env, key, default, AsBool, required).value.Bool?
    ensures GetEnv(env, key, default, AsBool, required).value.b <==>
      Lower(env[key]) == "1" || Lower(env[key]) == "true" || Lower(env[key]) == "yes" || Lower(env[key]) == "on"
  {
  }

  /** Case does not matter for a bool read: "TRUE", "Yes" and "ON" all read as true. */
  lemma BoolCastIgnoresCase(env: Env, key: string, default: Value, required: bool)
    requires key in env
    ensures GetEnv(env, key, default, AsBool, required) ==
      GetEnv(env[key := Lower(env[key])], key, default, AsBool, required)
  {
    LowerIdempotent(env[key]);
  }

  /** A list read of `AUTHORIZED_NUMBERS` holds exactly the numbers config.py authorizes. */
  lemma ListCastMatchesAuthorizedNumbers(env: Env, default: Value)
    requires "AUTHORIZED_NUMBERS" in env
    ensures var r := GetEnv(env, "AUTHORIZED_NUMBERS", default, AsList, false);
      forall n :: n in r.value.items <==> n in GetAuthorizedNumbers(env)
  {
  }

  /** An integer written with `str()` reads back as itself. */
  lemma IntCastReadsDecimal(env: Env, key: string, i: int, default: Value, required: bool)
    requires key in env && env[key] == IntToString(i)
    ensures GetEnv(env, key, default, AsInt, required) == Success(Int(i))
  {
    ParseIntToString(i);
  }
}
