/**
 * The in-memory cache of one slot (DataCacheManager.cs): a dictionary from string keys
 * to boxed values, replaced wholesale by `FromJson` and serialized whole by `ToJson`.
 */
module DataCache {
  import opened Wrappers
  import opened Platform

  /**
   * What `GetValue<T>` knows about its type argument `T`: `default(T)`, the runtime test
   * `value is T`, and `JsonConvert.DeserializeObject<T>` on a value's text.
   */
  datatype TypeView<T> = TypeView(default: T, cast: Value -> Option<T>, parse: string -> Option<T>)

  class DataCacheManager {
    var Cache: Entries

    constructor ()
      ensures Cache == map[]
    {
      Cache := map[];
    }

    /** `SetValue`: last write wins, every other entry stays. */
    method SetValue(key: string, value: Value)
      modifies this
      ensures Cache == old(Cache)[key := value]
      ensures forall k :: k in old(Cache) && k != key ==> k in Cache && Cache[k] == old(Cache)[k]
    {
      Cache := Cache[key := value];
    }

    /**
     * `GetValue<T>`: an absent key yields `default(T)` without error, a value that already
     * has type `T` is returned itself, and any other value goes through the JSON converter,
     * which may throw.
     */
    function GetValue<T>(env: Env, key: string, view: TypeView<T>): (r: Result<T>)
      reads this
      ensures key !in Cache ==> r == Success(view.default)
      ensures key in Cache && view.cast(Cache[key]).Some? ==> r == Success(view.cast(Cache[key]).value)
      ensures key in Cache && view.cast(Cache[key]).None? && view.parse(env.valueText(Cache[key])).Some? ==>
                r == Success(view.parse(env.valueText(Cache[key])).value)
      ensures r.Failure? ==> r.error == ConversionError && key in Cache && view.cast(Cache[key]).None?
                              && view.parse(env.valueText(Cache[key])).None?
    {
      if key !in Cache then Success(view.default)
      else match view.cast(Cache[key])
        case Some(direct) => Success(direct)
        case None =>
          match view.parse(env.valueText(Cache[key]))
          case Some(converted) => Success(converted)
          case None => Failure(ConversionError)
    }

    /** `RemoveValue`: removing an absent key changes nothing. */
    method RemoveValue(key: string)
      modifies this
      ensures Cache == old(Cache) - {key}
      ensures key !in old(Cache) ==> Cache == old(Cache)
    {
      Cache := Cache - {key};
    }

    /** `FromJson`: replaces the whole dictionary (no merge); a deserialization failure throws and leaves it. */
    method FromJson(env: Env, json: string) returns (r: Outcome)
      modifies this
      ensures env.cacheFromJson(json).Some? ==> r == Pass && Cache == env.cacheFromJson(json).value
      ensures env.cacheFromJson(json).None? ==> r == Fail(SerializationError) && Cache == old(Cache)
    {
      match env.cacheFromJson(json) {
        case None => r := Fail(SerializationError);
        case Some(entries) => Cache := entries; r := Pass;
      }
    }

    /** `ToJson`: serializes the whole dictionary; `FromJson` of the result restores it. */
    function ToJson(env: Env): (json: string)
      reads this
      ensures Lawful(env) ==> env.cacheFromJson(json) == Some(Cache)
    {
      env.cacheToJson(Cache)
    }
  }
}
