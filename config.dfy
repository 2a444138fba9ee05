/** ConfigManager: typed lookups over the loaded properties, with defaults,
    and the lazily created single instance. Loading the properties file is
    I/O: the manager is built from the map it would have loaded. */
module Config {
  import opened Results
  import Text

  /** The target classes getTypedProperty distinguishes (Double is not
      modelled; its parse is floating point). */
  datatype PropType = StringType | IntegerType | BooleanType | LongType | OtherType

  /** A value of one of those classes. `Other` stands for a value of any
      class the lookup does not convert. */
  datatype PropValue = Str(s: string) | Integer(i: int) | Bool(b: bool) | Long(l: int) | Other(tag: string)

  predicate HasType(v: PropValue, ty: PropType) {
    match ty
    case StringType => v.Str?
    case IntegerType => v.Integer? && Text.IsInt32(v.i)
    case BooleanType => v.Bool?
    case LongType => v.Long? && Text.LongMin <= v.l <= Text.LongMax
    case OtherType => v.Other?
  }

  /** Integer.valueOf / Long.valueOf: the decimal value when it is in range,
      None where the source catches a NumberFormatException. */
  function ParseInRange(value: string, min: int, max: int): (r: Option<int>)
    ensures r.Some? <==> Text.ParseDecimal(value).Some? && min <= Text.ParseDecimal(value).value <= max
    ensures r.Some? ==> r == Text.ParseDecimal(value)
  {
    match Text.ParseDecimal(value)
    case Some(n) => if min <= n <= max then Some(n) else None
    case None => None
  }

  class ConfigManager {
    /** The loaded properties (never reassigned after loading). */
    const properties: map<string, string>

    constructor (loaded: map<string, string>)
      ensures properties == loaded
    {
      properties := loaded;
    }

    /** getProperty(key): the value, or null. */
    function GetProperty(key: string): (r: Option<string>)
      ensures r.Some? <==> key in properties
      ensures r.Some? ==> r.value == properties[key]
    {
      if key in properties then Some(properties[key]) else None
    }

    /** getProperty(key, defaultValue). */
    function GetPropertyOr(key: string, defaultValue: string): (r: string)
      ensures key in properties ==> r == properties[key]
      ensures key !in properties ==> r == defaultValue
    {
      GetProperty(key).GetOr(defaultValue)
    }

    /** getTypedProperty: the default when the key is absent, the raw text
        for String, the parsed value for Integer and Long when it is a
        decimal in range (else the default), `equalsIgnoreCase("true")` for
        Boolean, and the default for any other class. It never throws. */
    function GetTypedProperty(key: string, ty: PropType, defaultValue: Option<PropValue>): (r: Option<PropValue>)
      requires defaultValue.Some? ==> HasType(defaultValue.value, ty)
      ensures r.Some? ==> HasType(r.value, ty)
      ensures key !in properties ==> r == defaultValue
      ensures key in properties && ty == StringType ==> r == Some(Str(properties[key]))
      ensures key in properties && ty == BooleanType ==>
        r == Some(Bool(Text.EqualsIgnoreCase(properties[key], "true")))
      ensures key in properties && ty == IntegerType ==>
        r == (if ParseInRange(properties[key], Text.IntMin, Text.IntMax).Some?
              then Some(Integer(ParseInRange(properties[key], Text.IntMin, Text.IntMax).value))
              else defaultValue)
      ensures key in properties && ty == LongType ==>
        r == (if ParseInRange(properties[key], Text.LongMin, Text.LongMax).Some?
              then Some(Long(ParseInRange(properties[key], Text.LongMin, Text.LongMax).value))
              else defaultValue)
      ensures ty == OtherType ==> r == defaultValue
    {
      match GetProperty(key)
      case None => defaultValue
      case Some(value) =>
        match ty
        case StringType => Some(Str(value))
        case IntegerType =>
          (match ParseInRange(value, Text.IntMin, Text.IntMax)
           case Some(n) => Some(Integer(n))
           case None => defaultValue)
        case BooleanType => Some(Bool(Text.EqualsIgnoreCase(value, "true")))
        case LongType =>
          (match ParseInRange(value, Text.LongMin, Text.LongMax)
           case Some(n) => Some(Long(n))
           case None => defaultValue)
        case OtherType => defaultValue
    }

    /** getIntProperty(key, defaultValue). */
    function GetIntPropertyOr(key: string, defaultValue: int): (r: int)
      requires Text.IsInt32(defaultValue)
      ensures Text.IsInt32(r)
      ensures key in properties && ParseInRange(properties[key], Text.IntMin, Text.IntMax).Some? ==>
        r == Text.ParseDecimal(properties[key]).value
      ensures key !in properties || ParseInRange(properties[key], Text.IntMin, Text.IntMax).None? ==>
        r == defaultValue
    {
      var v := GetTypedProperty(key, IntegerType, Some(Integer(defaultValue)));
      v.value.i
    }

    /** getIntProperty(key): the default is 0. */
    function GetIntProperty(key: string): (r: int)
      ensures Text.IsInt32(r)
      ensures key !in properties ==> r == 0
    {
      GetIntPropertyOr(key, 0)
    }

    /** getBooleanProperty(key, defaultValue): the default is used only when
        the key is absent. */
    function GetBooleanPropertyOr(key: string, defaultValue: bool): (r: bool)
      ensures key in properties ==> (r <==> Text.EqualsIgnoreCase(properties[key], "true"))
      ensures key !in properties ==> r == defaultValue
    {
      GetTypedProperty(key, BooleanType, Some(Bool(defaultValue))).value.b
    }

    /** getBooleanProperty(key): the default is false. */
    function GetBooleanProperty(key: string): (r: bool)
      ensures r <==> key in properties && Text.EqualsIgnoreCase(properties[key], "true")
    {
      GetBooleanPropertyOr(key, false)
    }

    // The named settings.

    function BaseUrl(): (r: Option<string>)
      ensures r.Some? <==> "api.base.url" in properties
    {
      GetProperty("api.base.url")
    }

    function Timeout(): (r: int)
      ensures Text.IsInt32(r)
      ensures "api.timeout" !in properties ==> r == 30000
    {
      GetIntPropertyOr("api.timeout", 30000)
    }

    function Environment(): (r: string)
      ensures "environment" !in properties ==> r == "test"
    {
      GetPropertyOr("environment", "test")
    }

    function AuthToken(): (r: Option<string>)
      ensures r.Some? <==> "auth.token" in properties
    {
      GetProperty("auth.token")
    }

    function Username(): (r: Option<string>)
      ensures r.Some? <==> "auth.username" in properties
    {
      GetProperty("auth.username")
    }

    function Password(): (r: Option<string>)
      ensures r.Some? <==> "auth.password" in properties
    {
      GetProperty("auth.password")
    }

    function MaxRetryCount(): (r: int)
      ensures Text.IsInt32(r)
      ensures "max.retry.count" !in properties ==> r == 3
    {
      GetIntPropertyOr("max.retry.count", 3)
    }

    function RetryDelay(): (r: int)
      ensures Text.IsInt32(r)
      ensures "retry.delay.ms" !in properties ==> r == 1000
    {
      GetIntPropertyOr("retry.delay.ms", 1000)
    }
  }

  /** The text `Integer.toString(n)` of any int reads back as `n`, whatever
      the default; text no decimal reading accepts gives the default. */
  lemma IntPropertyOfDecimalText(config: ConfigManager, key: string, n: int, defaultValue: int)
    requires Text.IsInt32(n) && Text.IsInt32(defaultValue)
    ensures key in config.properties && config.properties[key] == Text.IntToString(n) ==>
      config.GetIntPropertyOr(key, defaultValue) == n
    ensures key in config.properties && Text.ParseDecimal(config.properties[key]).None? ==>
      config.GetIntPropertyOr(key, defaultValue) == defaultValue
  {
    Text.ParseDecimalOfIntToString(n);
  }

  /** One past the largest int is a valid long but not a valid int: the int
      lookup falls back to its default while the long lookup parses it. */
  lemma IntOverflowFallsBack(config: ConfigManager, key: string)
    requires key in config.properties && config.properties[key] == Text.IntToString(Text.IntMax + 1)
    ensures config.GetIntPropertyOr(key, 7) == 7
    ensures config.GetTypedProperty(key, LongType, None) == Some(Long(Text.IntMax + 1))
  {
    Text.ParseDecimalOfIntToString(Text.IntMax + 1);
  }

  /** A boolean property reads "true" in any letter case as true and
      anything else (such as "yes") as false, even when the default is
      true; "TRUE" counts as true. */
  lemma BooleanPropertyIgnoresDefault(config: ConfigManager, key: string)
    requires key in config.properties
    ensures config.properties[key] == "yes" ==> !config.GetBooleanPropertyOr(key, true)
    ensures config.properties[key] == "TRUE" ==> config.GetBooleanPropertyOr(key, false)
  {
  }

  /** With nothing loaded, every named setting has its default and the
      URL, token and credentials are null. */
  lemma EmptyConfigDefaults(config: ConfigManager)
    requires config.properties == map[]
    ensures config.Timeout() == 30000 && config.Environment() == "test"
    ensures config.MaxRetryCount() == 3 && config.RetryDelay() == 1000
    ensures config.BaseUrl().None? && config.AuthToken().None?
    ensures config.Username().None? && config.Password().None?
  {
  }

  /** The holder of the static `instance` field. */
  class ConfigHolder {
    var instance: ConfigManager?

    constructor ()
      ensures instance == null
    {
      instance := null;
    }

    /** getInstance: creates the manager on the first call only (the
        sequential behaviour of the double-checked lock). `loaded` is what
        loading the properties file would give. */
    method GetInstance(loaded: map<string, string>) returns (m: ConfigManager)
      modifies this
      ensures instance == m
      ensures old(instance) != null ==> m == old(instance)
      ensures old(instance) == null ==> fresh(m) && m.properties == loaded
    {
      if instance == null {
        instance := new ConfigManager(loaded);
      }
      m := instance;
    }
  }

  /** Two calls give the same manager, built from what the first call
      loaded. */
  method GetInstanceTwice(holder: ConfigHolder, first: map<string, string>, second: map<string, string>)
    returns (a: ConfigManager, b: ConfigManager)
    requires holder.instance == null
    modifies holder
    ensures a == b && a.properties == first
  {
    a := holder.GetInstance(first);
    b := holder.GetInstance(second);
  }
}
