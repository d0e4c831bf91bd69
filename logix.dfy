/**
 * The Logix device family of process_link/connections/logix.py: a tag that
 * also needs a register address, and a connection whose type is `"logix"`
 * and whose poll rate, auto-connect flag, port and host fall back to defaults
 * with Python's `x or default`.
 *
 * Python subclassing becomes composition: a `LogixConnection` owns the base
 * `Connection` its constructor set up and overwrites that object's type and
 * poll rate, as the subclass `__init__` does after calling `super().__init__`.
 */
module Logix {
  import opened Values
  import opened Connections

  /** `params.get(key) or default`: the given value when it is truthy, the
      default when the key is absent or its value is falsy. */
  function GetOr(params: Params, key: string, default: Value): (v: Value)
    ensures Truthy(Get(params, key)) ==> key in params && v == params[key]
    ensures !Truthy(Get(params, key)) ==> v == default
    ensures Truthy(v) <==> Truthy(Get(params, key)) || Truthy(default)
  {
    var given := Get(params, key);
    if Truthy(given) then given else default
  }

  /** The connection settings a Logix connection resolves at construction. */
  datatype Settings = Settings(pollrate: Value, autoConnect: Value, port: Value, host: Value)

  const DefaultPollrate: Value := Real(1.0)
  const DefaultPort: Value := Int(44818)
  const DefaultHost: Value := Str("127.0.0.1")

  /** Lines 101 to 105 of the Logix `__init__`: each setting keeps a truthy
      given value verbatim and otherwise takes its default, so the poll rate,
      port and host always end up truthy, and a falsy auto-connect flag
      becomes `False`. */
  function ResolveSettings(params: Params): (s: Settings)
    ensures Truthy(s.pollrate) && Truthy(s.port) && Truthy(s.host)
    ensures Truthy(s.autoConnect) <==> Truthy(Get(params, "auto_connect"))
    ensures Truthy(Get(params, "pollrate")) ==> s.pollrate == params["pollrate"]
    ensures !Truthy(Get(params, "pollrate")) ==> s.pollrate == DefaultPollrate
    ensures Truthy(Get(params, "auto_connect")) ==> s.autoConnect == params["auto_connect"]
    ensures !Truthy(Get(params, "auto_connect")) ==> s.autoConnect == Bool(false)
    ensures Truthy(Get(params, "port")) ==> s.port == params["port"]
    ensures !Truthy(Get(params, "port")) ==> s.port == DefaultPort
    ensures Truthy(Get(params, "host")) ==> s.host == params["host"]
    ensures !Truthy(Get(params, "host")) ==> s.host == DefaultHost
  {
    Settings(
      GetOr(params, "pollrate", DefaultPollrate),
      GetOr(params, "auto_connect", Bool(false)),
      GetOr(params, "port", DefaultPort),
      GetOr(params, "host", DefaultHost))
  }

  /** An absent setting and a setting given as None, False, 0, 0.0 or `''`
      resolve alike, for all four settings; a poll rate given as 0.0 is not kept. */
  lemma FalsySettingsTakeDefaults(params: Params, v: Value)
    requires !Truthy(v)
    ensures ResolveSettings(params - {"pollrate", "auto_connect", "port", "host"}) ==
      ResolveSettings(params["pollrate" := v]["auto_connect" := v]["port" := v]["host" := v])
    ensures ResolveSettings(map[]) == Settings(DefaultPollrate, Bool(false), DefaultPort, DefaultHost)
  {
  }

  /** `LogixTag.__init__`: the base tag is built first and its errors propagate;
      then a missing `address` raises PropertyError; otherwise the tag has type
      `"logix"` and the given address. */
  function NewLogixTag(baseTag: TagConstructor, params: Params): (r: Result<Tag>)
    ensures r.Success? <==> baseTag(params).Success? && "address" in params
    ensures baseTag(params).Failure? ==> r == baseTag(params)
    ensures baseTag(params).Success? && "address" !in params ==> r == Failure(MissingProperty("address"))
    ensures r.Success? ==>
      r.value.tagType == "logix" && r.value.address == Some(params["address"]) &&
      r.value.attrs == baseTag(params).value.attrs
  {
    var base := baseTag(params);
    if base.Failure? then base
    else if "address" !in params then Failure(MissingProperty("address"))
    else Success(base.value.(tagType := "logix", address := Some(params["address"])))
  }

  /** The property names a Logix tag exposes: the local ones with `address`
      inserted just before `value`. */
  function LogixTagParameters(): (names: seq<string>)
    ensures names == TagParameters()[..|TagParameters()| - 1] + ["address", "value"]
  {
    ["id", "connection_id", "description", "datatype", "tag_type", "address", "value"]
  }

  class LogixConnection {
    /** The base-class part of the object. */
    const base: Connection
    var autoConnect: Value
    var host: Value
    var port: Value

    /** The state the Logix `__init__` leaves: the base state, except that the
        type is `"logix"` and the poll rate follows the Logix default rule. */
    ghost predicate Initialised(params: Params)
      reads this, base
    {
      var s := ResolveSettings(params);
      "id" in params &&
      base.id == params["id"] && base.connectionType == "logix" &&
      base.description == (if "description" in params then params["description"] else Str("")) &&
      base.pollrate == s.pollrate &&
      base.tags == map[] && base.polledTags == [] &&
      !base.threadLock && !base.polling && !base.conMan && base.pollersStarted == 0 &&
      autoConnect == s.autoConnect && port == s.port && host == s.host
    }

    constructor (base: Connection, params: Params)
      requires base.Initialised(params)
      modifies base
      ensures this.base == base
      ensures Initialised(params)
    {
      var s := ResolveSettings(params);
      this.base := base;
      autoConnect := s.autoConnect;
      port := s.port;
      host := s.host;
      new;
      base.connectionType := "logix";
      base.pollrate := s.pollrate;
    }

    function ConnectionType(): string
      reads this, base
    {
      base.connectionType
    }

    function Pollrate(): Value
      reads this, base
    {
      base.pollrate
    }

    function AutoConnect(): Value
      reads this
    {
      autoConnect
    }

    function Host(): Value
      reads this
    {
      host
    }

    function Port(): Value
      reads this
    {
      port
    }

    method SetPollrate(v: Value)
      modifies base`pollrate
      ensures Pollrate() == v
    {
      base.pollrate := v;
    }

    method SetAutoConnect(v: Value)
      modifies this`autoConnect
      ensures AutoConnect() == v
    {
      autoConnect := v;
    }

    method SetHost(v: Value)
      modifies this`host
      ensures Host() == v
    {
      host := v;
    }

    method SetPort(v: Value)
      modifies this`port
      ensures Port() == v
    {
      port := v;
    }
  }

  /** Construction of a Logix connection: the only errors are the base class's
      missing `id` or `connection_type`; missing or falsy host, port, poll rate
      and auto-connect settings take their defaults. */
  method NewLogixConnection(params: Params) returns (r: Result<LogixConnection>)
    ensures MissingRequired(params).Some? ==> r == Failure(MissingProperty(MissingRequired(params).value))
    ensures MissingRequired(params) == Nothing ==>
      r.Success? && fresh(r.value) && fresh(r.value.base) && r.value.Initialised(params)
  {
    var b := NewConnection(params);
    if b.Failure? {
      return Failure(b.error);
    }
    var c := new LogixConnection(b.value, params);
    r := Success(c);
  }
}
