/** The weather client `get_weather` (utils/weather_api.py): it builds the
    query for one city, asks the provider, and normalises the provider's
    answer into a four-field record or an error message.
    The HTTP call is the parameter `send`; the configuration read from the
    environment is the parameter `cfg`. */
module WeatherApi {
  import opened PyJson
  import opened Optional
  import TitleCase

  /** The message used when a failed response carries no `message` field. */
  const Fallback: string := "Unable to fetch weather."

  /** The unit system requested from the provider. */
  const Units: string := "metric"

  /** The per-request timeout handed to the HTTP library. */
  const RequestTimeout: nat := 5

  /** `API_KEY` and `BASE_URL` as read from the environment: either may be
      missing, and nothing checks that they are present. */
  datatype Config = Config(apiKey: Option<string>, baseUrl: Option<string>)

  /** A missing environment value is Python's `None`. */
  function FromEnv(v: Option<string>): (r: Json)
    ensures v.None? <==> r == JNull
    ensures v.Some? ==> r == JStr(v.value)
  {
    match v
    case None => JNull
    case Some(s) => JStr(s)
  }

  /** The GET request the client issues: the endpoint, the query parameters
      in the order they are built, and the timeout. */
  datatype Request = Request(url: Json, params: seq<(string, Json)>, timeout: nat)

  /** What the HTTP layer hands back: a status code with the decoded body, or
      the message of a request exception raised before a body could be used. */
  datatype Response =
    | Response(status: int, body: Json)
    | TransportFailure(message: string)

  /** The outcome of one lookup. `Record` and `Error` are the two dictionaries
      the client returns; `Uncaught` is an exception the client does not catch,
      raised while reading a success body that lacks one of the fields it
      expects or has them with the wrong shape. */
  datatype Lookup =
    | Record(city: Json, temperature: Json, humidity: Json, condition: string)
    | Error(message: Json)
    | Uncaught(exception: PyException)

  /** The value of the first parameter named `key`. */
  function Param(params: seq<(string, Json)>, key: string): Option<Json>
  {
    if params == [] then None
    else if params[0].0 == key then Some(params[0].1)
    else Param(params[1..], key)
  }

  /** The parameter names, in order. */
  function ParamNames(params: seq<(string, Json)>): seq<string>
  {
    if params == [] then [] else [params[0].0] + ParamNames(params[1..])
  }

  function QueryParams(cfg: Config, city: Json): seq<(string, Json)>
  {
    [("q", city), ("appid", FromEnv(cfg.apiKey)), ("units", JStr(Units))]
  }

  function QueryRequest(cfg: Config, city: Json): Request
  {
    Request(FromEnv(cfg.baseUrl), QueryParams(cfg, city), RequestTimeout)
  }

  /** The query carries exactly three parameters, `q`, `appid` and `units`:
      the city as given, the credential (None when it is missing) and the
      metric unit system. */
  lemma QueryRequestParams(cfg: Config, city: Json)
    ensures ParamNames(QueryRequest(cfg, city).params) == ["q", "appid", "units"]
    ensures Param(QueryRequest(cfg, city).params, "q") == Some(city)
    ensures Param(QueryRequest(cfg, city).params, "appid") ==
            Some(if cfg.apiKey.Some? then JStr(cfg.apiKey.value) else JNull)
    ensures Param(QueryRequest(cfg, city).params, "units") == Some(JStr("metric"))
    ensures QueryRequest(cfg, city).timeout == 5
    ensures QueryRequest(cfg, city).url ==
            (if cfg.baseUrl.Some? then JStr(cfg.baseUrl.value) else JNull)
  {
    var p := QueryRequest(cfg, city).params;
    assert p[1..] == [("appid", FromEnv(cfg.apiKey)), ("units", JStr(Units))];
    assert p[1..][1..] == [("units", JStr(Units))];
    assert p[1..][1..][1..] == [];
    assert "q" != "units" && "q" != "appid";
    assert "appid" != "units" by { assert "appid"[0] != "units"[0]; }
    assert ParamNames(p[1..][1..]) == ["units"];
    assert ParamNames(p[1..]) == ["appid", "units"];
    assert Param(p[1..][1..], "units") == Some(JStr(Units));
    assert Param(p[1..], "units") == Some(JStr(Units));
  }

  /** The success dictionary, built field by field in the order Python
      evaluates the dictionary display; the first exception raised wins.
      The source reads `data["main"]` twice; both reads give the same value,
      so it is read once here. */
  function SuccessRecord(data: Json): Eval<Lookup>
  {
    var name :- Member(data, "name");
    var main :- Member(data, "main");
    var temp :- Member(main, "temp");
    var humidity :- Member(main, "humidity");
    var weather :- Member(data, "weather");
    var first :- First(weather);
    var description :- Member(first, "description");
    var condition :- PyJson.Title(description);
    Value(Record(name, temp, humidity, condition))
  }

  /** The error dictionary of a response whose status is not 200. */
  function FailureMessage(data: Json): Eval<Lookup>
  {
    var message :- Get(data, "message", JStr(Fallback));
    Value(Error(message))
  }

  /** The decision on the provider's answer. */
  function Normalise(resp: Response): Lookup
  {
    match resp
    case TransportFailure(msg) => Error(JStr(msg))
    case Response(status, data) =>
      var r := if status == 200 then SuccessRecord(data) else FailureMessage(data);
      match r
      case Value(v) => v
      case Raised(e) => Uncaught(e)
  }

  /** `get_weather(city)`: one request to the provider, then the decision. */
  function GetWeather(cfg: Config, city: Json, send: Request -> Response): Lookup
  {
    Normalise(send(QueryRequest(cfg, city)))
  }

  /** A success body is one the client can read without an exception: an
      object with `name`, with an object `main` holding `temp` and `humidity`,
      and with a non-empty list `weather` whose first element is an object
      holding a string `description`. */
  predicate WellFormedSuccess(data: Json)
  {
    && data.JObj?
    && "name" in data.fields
    && "main" in data.fields
    && data.fields["main"].JObj?
    && "temp" in data.fields["main"].fields
    && "humidity" in data.fields["main"].fields
    && "weather" in data.fields
    && data.fields["weather"].JArr?
    && |data.fields["weather"].items| > 0
    && data.fields["weather"].items[0].JObj?
    && "description" in data.fields["weather"].items[0].fields
    && data.fields["weather"].items[0].fields["description"].JStr?
  }

  /** A status-200 response with a well-formed body yields the record whose
      city, temperature and humidity are the body's values, unconverted, and
      whose condition is the title-cased description; any other status-200
      body raises an exception the client does not catch. */
  lemma SuccessResponse(data: Json)
    ensures WellFormedSuccess(data) ==>
      Normalise(Response(200, data)) ==
        Record(data.fields["name"],
               data.fields["main"].fields["temp"],
               data.fields["main"].fields["humidity"],
               TitleCase.Title(data.fields["weather"].items[0].fields["description"].s))
    ensures !WellFormedSuccess(data) <==> Normalise(Response(200, data)).Uncaught?
  {
  }

  /** Which exception a status-200 body raises first. */
  lemma SuccessExceptions(data: Json)
    ensures !data.JObj? ==> Normalise(Response(200, data)) == Uncaught(TypeError)
    ensures data.JObj? && "name" !in data.fields ==>
      Normalise(Response(200, data)) == Uncaught(KeyError)
    ensures data.JObj? && "name" in data.fields && "main" in data.fields
            && "weather" in data.fields && data.fields["main"].JObj?
            && "temp" in data.fields["main"].fields
            && "humidity" in data.fields["main"].fields
            && data.fields["weather"] == JArr([]) ==>
      Normalise(Response(200, data)) == Uncaught(IndexError)
  {
  }

  /** Any status other than 200 yields the body's `message`, whatever its
      value, or exactly the fallback text when the body has none; a body that
      is not an object has no `get` method. */
  lemma FailureResponse(status: int, data: Json)
    requires status != 200
    ensures data.JObj? ==>
      Normalise(Response(status, data)) ==
        Error(if "message" in data.fields then data.fields["message"]
              else JStr("Unable to fetch weather."))
    ensures !data.JObj? ==> Normalise(Response(status, data)) == Uncaught(AttributeError)
  {
  }

  /** A request exception yields an error carrying its message, never a
      record. */
  lemma TransportResponse(msg: string)
    ensures Normalise(TransportFailure(msg)) == Error(JStr(msg))
  {
  }

  /** The dictionary the client returns, for the two outcomes that return. */
  function AsDict(r: Lookup): map<string, Json>
    requires !r.Uncaught?
  {
    match r
    case Record(city, temperature, humidity, condition) =>
      map["city" := city, "temperature" := temperature,
          "humidity" := humidity, "condition" := JStr(condition)]
    case Error(message) => map["error" := message]
  }

  /** Every returned dictionary is exactly one of the two shapes: the four
      record keys without `error`, or the single key `error`. A caller that
      tests for the `error` key therefore tells the two apart. */
  lemma ResultShapes(resp: Response)
    requires !Normalise(resp).Uncaught?
    ensures var d := AsDict(Normalise(resp));
      ("error" in d <==> Normalise(resp).Error?)
      && (Normalise(resp).Record? ==>
            d.Keys == {"city", "temperature", "humidity", "condition"})
      && (Normalise(resp).Error? ==> d.Keys == {"error"})
  {
  }

  /** The responses that are success or failure decide the outcome by status
      alone: status 200 never yields an error, any other status never yields
      a record. */
  lemma StatusDecides(status: int, data: Json)
    ensures status == 200 ==> !Normalise(Response(status, data)).Error?
    ensures status != 200 ==> !Normalise(Response(status, data)).Record?
  {
  }

  /** The provider's answer for London, as a status-200 body. */
  function LondonBody(): Json
  {
    JObj(map["name" := JStr("London"),
             "main" := JObj(map["temp" := JNum(15.2), "humidity" := JNum(72.0)]),
             "weather" := JArr([JObj(map["description" := JStr("light rain")])])])
  }

  lemma LondonScenario()
    ensures Normalise(Response(200, LondonBody())) ==
            Record(JStr("London"), JNum(15.2), JNum(72.0), "Light Rain")
  {
    TitleCase.TitleLightRain();
    SuccessResponse(LondonBody());
  }

  lemma CityNotFoundScenario()
    ensures Normalise(Response(404, JObj(map["message" := JStr("city not found")]))) ==
            Error(JStr("city not found"))
    ensures Normalise(Response(404, JObj(map[]))) == Error(JStr("Unable to fetch weather."))
  {
  }
}
