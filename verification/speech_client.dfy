/**
 * The speech-synthesis client: the voice catalogue and `generateSpeech`, which
 * validates its input, builds one POST request, and classifies what the
 * network gives back. The network is a parameter: what arrived and when, or
 * the error `fetch` rejected with.
 */
module SpeechClient {
  import opened Common
  import opened Text

  /** One entry of the voice catalogue. */
  datatype Voice = Voice(
    name: string,
    accent: string,
    language: string,
    languageCode: string,
    value: string,
    sample: string,
    gender: string,
    style: string)

  /** The five voices offered to the user, in menu order. */
  const Voices: seq<Voice> := [
    Voice("Angelo", "american", "English (US)", "EN-US",
      "s3://voice-cloning-zero-shot/baf1ef41-36b6-428c-9bdf-50ba54682bd8/original/manifest.json",
      "https://peregrine-samples.s3.us-east-1.amazonaws.com/parrot-samples/Angelo_Sample.wav",
      "male", "Conversational"),
    Voice("Deedee", "american", "English (US)", "EN-US",
      "s3://voice-cloning-zero-shot/e040bd1b-f190-4bdb-83f0-75ef85b18f84/original/manifest.json",
      "https://peregrine-samples.s3.us-east-1.amazonaws.com/parrot-samples/Deedee_Sample.wav",
      "female", "Conversational"),
    Voice("Jennifer", "american", "English (US)", "EN-US",
      "s3://voice-cloning-zero-shot/801a663f-efd0-4254-98d0-5c175514c3e8/jennifer/manifest.json",
      "https://peregrine-samples.s3.amazonaws.com/parrot-samples/jennifer.wav",
      "female", "Conversational"),
    Voice("Briggs", "american", "English (US)", "EN-US",
      "s3://voice-cloning-zero-shot/71cdb799-1e03-41c6-8a05-f7cd55134b0b/original/manifest.json",
      "https://peregrine-samples.s3.us-east-1.amazonaws.com/parrot-samples/Briggs_Sample.wav",
      "male", "Narrative"),
    Voice("Samara", "american", "English (US)", "EN-US",
      "s3://voice-cloning-zero-shot/90217770-a480-4a91-b1ea-df00f4d4c29d/original/manifest.json",
      "https://parrot-samples.s3.amazonaws.com/gargamel/Samara.wav",
      "female", "Conversational")
  ]

  /** The voice both panels start with. */
  function DefaultVoice(): (v: Voice)
    ensures v in Voices && v.name == "Angelo"
  {
    Voices[0]
  }

  /** `voices.find(voice => voice.name === name)`: the first voice with that
      name. */
  function FindByName(voices: seq<Voice>, name: string): (r: Option<Voice>)
    ensures r.Some? ==> r.value in voices && r.value.name == name
    ensures r.None? <==> forall k :: 0 <= k < |voices| ==> voices[k].name != name
  {
    if voices == [] then None
    else if voices[0].name == name then Some(voices[0])
    else FindByName(voices[1..], name)
  }

  lemma {:induction false} FindFirst(voices: seq<Voice>, k: nat)
    requires k < |voices| && forall j :: 0 <= j < k ==> voices[j].name != voices[k].name
    ensures FindByName(voices, voices[k].name) == Some(voices[k])
    decreases k
  {
    if k > 0 {
      FindFirst(voices[1..], k - 1);
    }
  }

  /** The catalogue has five voices with pairwise distinct names, the first
      of them the default. */
  lemma CatalogueShape()
    ensures |Voices| == 5 && DefaultVoice() == Voices[0]
    ensures forall i, j :: 0 <= i < j < |Voices| ==> Voices[i].name != Voices[j].name
  {
    var names := ["Angelo", "Deedee", "Jennifer", "Briggs", "Samara"];
    assert forall k :: 0 <= k < 5 ==> Voices[k].name == names[k];
    assert forall i, j :: 0 <= i < j < 5 ==> names[i][0] != names[j][0];
  }

  /** Selecting a voice by its name in the menu selects exactly that voice. */
  lemma CatalogueByName()
    ensures forall k :: 0 <= k < |Voices| ==> FindByName(Voices, Voices[k].name) == Some(Voices[k])
  {
    CatalogueShape();
    forall k | 0 <= k < |Voices|
      ensures FindByName(Voices, Voices[k].name) == Some(Voices[k])
    {
      FindFirst(Voices, k);
    }
  }

  /** `process.env.X || fallback`: an unset or empty variable gives the fallback. */
  function EnvOr(v: Option<string>, fallback: string): (r: string)
    ensures v.Some? && v.value != [] ==> r == v.value
    ensures v.None? || v.value == [] ==> r == fallback
  {
    if v.Some? && v.value != [] then v.value else fallback
  }

  const DefaultUrl: string := "https://api.play.ai/api/v1/tts/stream"

  /** The API key, user id and endpoint read once from the environment. */
  datatype Config = Config(apiKey: string, userId: string, url: string)

  function ConfigFrom(key: Option<string>, user: Option<string>, url: Option<string>): (c: Config)
    ensures c.url != []
    ensures (url.None? || url.value == []) ==> c.url == DefaultUrl
  {
    Config(EnvOr(key, ""), EnvOr(user, ""), EnvOr(url, DefaultUrl))
  }

  /** The JSON body sent to the service. */
  datatype Body = Body(text: string, voice: string, temperature: real, speed: real, model: string)

  datatype Request = Request(url: string, httpMethod: string, headers: seq<(string, string)>, body: Body)

  const DefaultTemperature: real := 0.5
  const DefaultSpeed: real := 1.0
  const Model: string := "PlayDialog"

  /** The abort timer. */
  const TimeoutMs: nat := 30000

  /** How the request went: a response whose headers arrived `elapsedMs` after
      sending, with its status, its body text and the size of its body as a
      blob; or a rejection of `fetch` itself. */
  datatype Network =
    | Responded(elapsedMs: nat, status: nat, text: string, size: nat)
    | Rejected(error: JsError)

  /** What one call does: the request it sent, if any, and its result. */
  datatype Call = Call(sent: Option<Request>, result: Result<string, JsError>)

  const EmptyTextMessage: string := "Empty text cannot be processed"
  const TimeoutMessage: string := "TTS request timed out after 30 seconds"
  const EmptyAudioMessage: string := "API returned empty audio data"

  function Header(name: string, value: string): (string, string) { (name, value) }

  /** The POST request: JSON content, the key as a bearer token and the user
      id as headers; the text and voice as given; a missing temperature or
      speed falls back to 0.5 or 1.0; the model is always `PlayDialog`. */
  function BuildRequest(c: Config, text: string, voice: string, temperature: Option<real>, speed: Option<real>): (r: Request)
    ensures r.url == c.url && r.httpMethod == "POST"
    ensures ("Content-Type", "application/json") in r.headers
    ensures ("Authorization", "Bearer " + c.apiKey) in r.headers && ("X-User-Id", c.userId) in r.headers
    ensures r.body.text == text && r.body.voice == voice && r.body.model == Model
    ensures temperature.None? ==> r.body.temperature == 0.5
    ensures temperature.Some? ==> r.body.temperature == temperature.value
    ensures speed.None? ==> r.body.speed == 1.0
    ensures speed.Some? ==> r.body.speed == speed.value
  {
    Request(c.url, "POST",
      [Header("Content-Type", "application/json"),
       Header("Authorization", "Bearer " + c.apiKey),
       Header("X-User-Id", c.userId)],
      Body(text, voice,
        if temperature.Some? then temperature.value else DefaultTemperature,
        if speed.Some? then speed.value else DefaultSpeed,
        Model))
  }

  predicate IsOk(status: nat)
  {
    200 <= status <= 299
  }

  function StatusMessage(status: nat, text: string): string
  {
    "API error: " + Decimal(status) + " - " + text
  }

  /** `generateSpeech`; `handle` is the object URL the browser would create for
      the audio. */
  function GenerateSpeech(c: Config, text: string, voice: string, temperature: Option<real>,
                          speed: Option<real>, net: Network, handle: string): (call: Call)
    ensures Trim(text) == [] <==> call.sent.None?
    ensures call.sent.None? ==> call.result == Err(PlainError(EmptyTextMessage))
    ensures call.sent.Some? ==>
      && call.sent.value.body.text == Trim(text)
      && call.sent.value.url == c.url
    ensures call.result.Ok? ==> call.sent.Some? && call.result.value == handle
  {
    var trimmed := Trim(text);
    if trimmed == [] then Call(None, Err(PlainError(EmptyTextMessage)))
    else
      var request := BuildRequest(c, trimmed, voice, temperature, speed);
      Call(Some(request), Classify(net, handle))
  }

  /** The outcome of a sent request. */
  function Classify(net: Network, handle: string): (r: Result<string, JsError>)
    ensures r.Ok? ==> r.value == handle
  {
    match net
    case Rejected(e) =>
      if e.name == "AbortError" then Err(PlainError(TimeoutMessage)) else Err(e)
    case Responded(ms, status, body, size) =>
      if ms >= TimeoutMs then Err(PlainError(TimeoutMessage))
      else if !IsOk(status) then Err(PlainError(StatusMessage(status, body)))
      else if size == 0 then Err(PlainError(EmptyAudioMessage))
      else Ok(handle)
  }

  /** A request that is sent carries the trimmed text, the chosen voice, the
      defaults for missing options, the fixed model, the POST method, and the
      bearer key and user id of the configuration. */
  lemma RequestShape(c: Config, text: string, voice: string, temperature: Option<real>,
                     speed: Option<real>, net: Network, handle: string)
    requires Trim(text) != []
    ensures var call := GenerateSpeech(c, text, voice, temperature, speed, net, handle);
      && call.sent.Some?
      && var r := call.sent.value;
      && r.httpMethod == "POST"
      && r.body.text != [] && IsTrimmed(r.body.text)
      && NonSpace(r.body.text) == NonSpace(text)
      && r.body.voice == voice
      && r.body.model == "PlayDialog"
      && (temperature.None? ==> r.body.temperature == 0.5)
      && (temperature.Some? ==> r.body.temperature == temperature.value)
      && (speed.None? ==> r.body.speed == 1.0)
      && (speed.Some? ==> r.body.speed == speed.value)
      && ("Authorization", "Bearer " + c.apiKey) in r.headers
      && ("X-User-Id", c.userId) in r.headers
      && ("Content-Type", "application/json") in r.headers
  {
  }

  /** Exactly one handle comes back, and only when the response arrived before
      the timer, with a 2xx status and a non-empty body. */
  lemma SuccessIff(c: Config, text: string, voice: string, temperature: Option<real>,
                   speed: Option<real>, net: Network, handle: string)
    ensures var call := GenerateSpeech(c, text, voice, temperature, speed, net, handle);
      && (call.result.Ok? <==>
          && Trim(text) != []
          && net.Responded? && net.elapsedMs < 30000 && 200 <= net.status < 300 && net.size > 0)
      && (call.result.Ok? ==> call.result.value == handle)
  {
    var call := GenerateSpeech(c, text, voice, temperature, speed, net, handle);
    ClassifyOkIff(net, handle);
    if Trim(text) != [] {
      assert call.result == Classify(net, handle);
    } else {
      assert call.result.Err?;
    }
  }

  lemma ClassifyOkIff(net: Network, handle: string)
    ensures Classify(net, handle).Ok? <==>
      net.Responded? && net.elapsedMs < 30000 && 200 <= net.status < 300 && net.size > 0
  {
  }

  /** The failure messages: a timeout or abort gives the timeout message, a
      non-2xx status gives one naming the status and the body text, an empty
      body gives the empty-audio message, and any other rejection is passed on
      unchanged. The caller never sees an `AbortError`. */
  lemma FailureMessages(c: Config, text: string, voice: string, temperature: Option<real>,
                        speed: Option<real>, net: Network, handle: string)
    requires Trim(text) != []
    ensures var r := GenerateSpeech(c, text, voice, temperature, speed, net, handle).result;
      && (r.Err? ==> r.error.name != "AbortError")
      && (net.Rejected? && net.error.name == "AbortError" ==> r == Err(JsError("Error", TimeoutMessage)))
      && (net.Rejected? && net.error.name != "AbortError" ==> r == Err(net.error))
      && (net.Responded? && net.elapsedMs >= 30000 ==> r == Err(JsError("Error", TimeoutMessage)))
      && (net.Responded? && net.elapsedMs < 30000 && !(200 <= net.status < 300) ==>
            r == Err(JsError("Error", "API error: " + Decimal(net.status) + " - " + net.text)))
      && (net.Responded? && net.elapsedMs < 30000 && 200 <= net.status < 300 && net.size == 0 ==>
            r == Err(JsError("Error", "API returned empty audio data")))
  {
    assert GenerateSpeech(c, text, voice, temperature, speed, net, handle).result == Classify(net, handle);
    ClassifyMessages(net, handle);
  }

  lemma ClassifyMessages(net: Network, handle: string)
    ensures var r := Classify(net, handle);
      && (r.Err? ==> r.error.name != "AbortError")
      && (net.Rejected? && net.error.name == "AbortError" ==> r == Err(JsError("Error", TimeoutMessage)))
      && (net.Rejected? && net.error.name != "AbortError" ==> r == Err(net.error))
      && (net.Responded? && net.elapsedMs >= 30000 ==> r == Err(JsError("Error", TimeoutMessage)))
      && (net.Responded? && net.elapsedMs < 30000 && !(200 <= net.status < 300) ==>
            r == Err(JsError("Error", "API error: " + Decimal(net.status) + " - " + net.text)))
      && (net.Responded? && net.elapsedMs < 30000 && 200 <= net.status < 300 && net.size == 0 ==>
            r == Err(JsError("Error", "API returned empty audio data")))
  {
  }

  /** The status can be read back from a status error: the message is the
      fixed prefix, the status in decimal, and the separator before the body. */
  lemma StatusReadBack(status: nat, body: string)
    ensures var m := StatusMessage(status, body);
      var d := Decimal(status);
      && m[..11] == "API error: "
      && m[11..11 + |d|] == d
      && DigitsValue(m[11..11 + |d|]) == status
      && m[11 + |d|..] == " - " + body
  {
    DecimalRoundTrip(status);
    var d := Decimal(status);
    var prefix := "API error: ";
    var tail := " - " + body;
    var m := StatusMessage(status, body);
    assert |prefix| == 11;
    assert m == prefix + (d + tail);
    assert m[..11] == prefix;
    assert m[11..] == d + tail;
    assert m[11..][..|d|] == d && m[11..][|d|..] == tail;
    assert m[11..11 + |d|] == m[11..][..|d|];
    assert m[11 + |d|..] == m[11..][|d|..];
  }
}
