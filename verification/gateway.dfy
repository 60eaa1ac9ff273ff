/** The completion client of app1.py: the API-key gate, the retry loop over the primary
    and fallback models around the HTTP call, and the defensive reading of the reply.

    The network is an oracle `respond`: `respond(k)` is what the k-th request of the call
    (counted from 0) comes back with. Sleeping is recorded, not performed: a call returns
    the list of delays it slept, and the list of models it sent a request for. */
module Gateway {
  import opened PyText
  import opened PyJson

  const EuronModel: string := "gemini-2.5-pro-exp-03-25"
  const FallbackModel: string := "gemini-pro"

  /** The models the call loops over, primary first. */
  const Models: seq<string> := [EuronModel, FallbackModel]

  // ---------------------------------------------------------------- API key

  /** `st.secrets["euron"]["api_key"]`, where a KeyError, a TypeError or an empty (falsy)
      key all give None. `secrets` is the top-level secrets table. */
  function GetApiKey(secrets: map<string, Json>): (key: Option<Json>)
    ensures key.Some? <==>
      "euron" in secrets && secrets["euron"].JObj? && "api_key" in secrets["euron"].fields
      && Truthy(secrets["euron"].fields["api_key"])
    ensures key.Some? ==> key.value == secrets["euron"].fields["api_key"] && Truthy(key.value)
  {
    if "euron" !in secrets then None
    else match GetItem(secrets["euron"], "api_key")
      case Raised(_) => None
      case Ok(k) => if Truthy(k) then Some(k) else None
  }

  // ---------------------------------------------------------------- reading a reply

  /** The three places a reply's first choice may carry its text, in the order tried:
      `choice["message"]["content"]`, `choice["text"]`, `choice["content"]`. */
  datatype Shape = MessageContent | Text | FlatContent

  const Shapes: seq<Shape> := [MessageContent, Text, FlatContent]

  datatype Extracted = Content(text: string) | NoContent | Fault(error: PyError)

  /** The test that selects `shape` for `choice`. */
  function Selects(choice: Json, shape: Shape): Result<bool> {
    match shape
    case MessageContent =>
      (match Contains("message", choice)
       case Raised(e) => Raised(e)
       case Ok(present) =>
         if !present then Ok(false)
         else match GetItem(choice, "message")
           case Raised(e) => Raised(e)
           case Ok(message) => Contains("content", message))
    case Text => Contains("text", choice)
    case FlatContent => Contains("content", choice)
  }

  /** The value a selected shape reads, stripped. */
  function Read(choice: Json, shape: Shape): (r: Result<string>)
    ensures r.Ok? ==> IsStripped(r.value)
  {
    var field := match shape
      case MessageContent =>
        (match GetItem(choice, "message")
         case Raised(e) => Raised(e)
         case Ok(message) => GetItem(message, "content"))
      case Text => GetItem(choice, "text")
      case FlatContent => GetItem(choice, "content");
    match field
    case Raised(e) => Raised(e)
    case Ok(v) => CallStrip(v)
  }

  /** Tries `shapes` in order; the first whose test holds is read, and no later one is
      looked at. */
  function FirstShape(choice: Json, shapes: seq<Shape>): (r: Extracted)
    ensures r.Content? ==> IsStripped(r.text)
    ensures r.Content? ==> exists k :: 0 <= k < |shapes| && Read(choice, shapes[k]) == Ok(r.text)
  {
    if shapes == [] then NoContent
    else match Selects(choice, shapes[0])
      case Raised(e) => Fault(e)
      case Ok(selected) =>
        if selected then
          match Read(choice, shapes[0])
          case Raised(e) => Fault(e)
          case Ok(t) => Content(t)
        else
          var r := FirstShape(choice, shapes[1..]);
          assert r.Content? ==> exists k :: 1 <= k < |shapes| && Read(choice, shapes[k]) == Ok(r.text) by {
            if r.Content? {
              var k :| 0 <= k < |shapes[1..]| && Read(choice, shapes[1..][k]) == Ok(r.text);
              assert shapes[k + 1] == shapes[1..][k];
            }
          }
          r
  }

  /** The reading of a decoded reply: `choices[0]` of the reply, when the reply has a
      non-empty `choices`, read by the first shape that is present. */
  function ExtractContent(data: Json): (r: Extracted)
    ensures r.Content? ==> IsStripped(r.text)
    ensures data.JObj? && "choices" !in data.fields ==> r == NoContent
    ensures data.JObj? && "choices" in data.fields && data.fields["choices"] == JArr([]) ==> r == NoContent
  {
    match Contains("choices", data)
    case Raised(e) => Fault(e)
    case Ok(present) =>
      if !present then NoContent
      else match GetItem(data, "choices")
        case Raised(e) => Fault(e)
        case Ok(choices) =>
          match Len(choices)
          case Raised(e) => Fault(e)
          case Ok(n) =>
            if n == 0 then NoContent
            else match ItemZero(choices)
              case Raised(e) => Fault(e)
              case Ok(choice) => FirstShape(choice, Shapes)
  }

  /** The reply `{"choices": [choice, ...]}` with a dict as its first choice. */
  predicate FirstChoiceIs(data: Json, choice: map<string, Json>) {
    data.JObj? && "choices" in data.fields && data.fields["choices"].JArr?
    && |data.fields["choices"].items| > 0 && data.fields["choices"].items[0] == JObj(choice)
  }

  /** A choice whose "message" is absent, or present without a "content" in it. */
  predicate NoMessageContent(choice: map<string, Json>) {
    "message" !in choice || Contains("content", choice["message"]) == Ok(false)
  }

  /** A reply whose first choice is a dict is read by the shapes alone. */
  lemma ReadsFirstChoice(data: Json, choice: map<string, Json>)
    requires FirstChoiceIs(data, choice)
    ensures ExtractContent(data) == FirstShape(JObj(choice), Shapes)
  {
    var choices := data.fields["choices"];
    assert Contains("choices", data) == Ok(true);
    assert GetItem(data, "choices") == Ok(choices);
    assert Len(choices) == Ok(|choices.items|);
    assert ItemZero(choices) == Ok(JObj(choice));
  }

  /** The nested message content wins over the other two shapes. */
  lemma MessageContentWins(data: Json, choice: map<string, Json>, message: map<string, Json>, text: string)
    requires FirstChoiceIs(data, choice)
    requires "message" in choice && choice["message"] == JObj(message)
    requires "content" in message && message["content"] == JStr(text)
    ensures ExtractContent(data) == Content(Strip(text))
  {
    ReadsFirstChoice(data, choice);
    assert Selects(JObj(choice), MessageContent) == Ok(true);
    assert Read(JObj(choice), MessageContent) == Ok(Strip(text));
    assert FirstShape(JObj(choice), Shapes) == Content(Strip(text));
  }

  /** Without a nested message content, the reading goes on to the other two shapes. */
  lemma SkipsMessageContent(choice: map<string, Json>)
    requires NoMessageContent(choice)
    ensures FirstShape(JObj(choice), Shapes) == FirstShape(JObj(choice), [Text, FlatContent])
  {
    assert Selects(JObj(choice), MessageContent) == Ok(false);
    assert Shapes[1..] == [Text, FlatContent];
  }

  /** Without a nested message content, "text" wins over a flat "content". */
  lemma TextComesSecond(data: Json, choice: map<string, Json>, text: string)
    requires FirstChoiceIs(data, choice) && NoMessageContent(choice)
    requires "text" in choice && choice["text"] == JStr(text)
    ensures ExtractContent(data) == Content(Strip(text))
  {
    ReadsFirstChoice(data, choice);
    SkipsMessageContent(choice);
    assert Selects(JObj(choice), Text) == Ok(true);
  }

  /** Without the other two, a flat "content" is read. */
  lemma FlatContentComesLast(data: Json, choice: map<string, Json>, text: string)
    requires FirstChoiceIs(data, choice) && NoMessageContent(choice) && "text" !in choice
    requires "content" in choice && choice["content"] == JStr(text)
    ensures ExtractContent(data) == Content(Strip(text))
  {
    ReadsFirstChoice(data, choice);
    SkipsMessageContent(choice);
    assert Selects(JObj(choice), Text) == Ok(false);
    assert [Text, FlatContent][1..] == [FlatContent];
    assert Selects(JObj(choice), FlatContent) == Ok(true);
  }

  /** A first choice with none of the three shapes gives no content. */
  lemma NoShapeNoContent(data: Json, choice: map<string, Json>)
    requires FirstChoiceIs(data, choice) && NoMessageContent(choice)
    requires "text" !in choice && "content" !in choice
    ensures ExtractContent(data) == NoContent
  {
    ReadsFirstChoice(data, choice);
    SkipsMessageContent(choice);
    assert Selects(JObj(choice), Text) == Ok(false);
    assert [Text, FlatContent][1..] == [FlatContent];
    assert FirstShape(JObj(choice), [Text, FlatContent]) == FirstShape(JObj(choice), [FlatContent]);
    assert Selects(JObj(choice), FlatContent) == Ok(false);
    assert [FlatContent][1..] == [];
    assert FirstShape(JObj(choice), [FlatContent]) == FirstShape(JObj(choice), []);
  }

  // ---------------------------------------------------------------- one attempt

  /** What one request comes back with. `Response` is a reply that arrived: its HTTP
      status, its body text, and the body decoded as JSON (None when it is not JSON). */
  datatype Outcome =
    | Response(status: int, text: string, body: Option<Json>)
    | Timeout
    | ConnectionFailure(detail: string)  // any other requests.RequestException
    | Crash(detail: string)              // any other exception

  /** What `call_euron_api` returns, or, for `SleepFailed`, the exception it raises;
      `Message` gives the returned string. */
  datatype CallResult =
    | Answer(text: string)
    | NoValidContent
    | HttpFailure(status: int, body: string)
    | TimedOut
    | ConnectFailed(detail: string)
    | InvalidFormat
    | Unexpected(detail: string)
    | NotConfigured
    | Exhausted(retries: int)
    | SleepFailed(delay: int)  // `time.sleep` refused the delay (see `SleepAccepts`); it leaves the call

  /** The text after "Error: " in the string returned for a failure. */
  function ErrorText(r: CallResult): string
    requires !r.Answer? && !r.SleepFailed?
  {
    match r
    case NoValidContent => "No valid response content from API."
    case HttpFailure(status, body) => "HTTP " + IntToDecimal(status) + " - " + body
    case TimedOut => "API request timed out after multiple attempts."
    case ConnectFailed(detail) => "Failed to connect to API - " + detail
    case InvalidFormat => "Invalid API response format."
    case Unexpected(detail) => "Unexpected issue - " + detail
    case NotConfigured => "API key not configured. Please check your Streamlit secrets."
    case Exhausted(n) =>
      "Failed to get response with models " + EuronModel + " and " + FallbackModel
      + " after " + IntToDecimal(n) + " attempts."
  }

  /** The string the call returns: the reply's text, or a message starting with "Error: ". */
  function Message(r: CallResult): (msg: string)
    requires !r.SleepFailed?
    ensures r.Answer? ==> msg == r.text
    ensures !r.Answer? ==> |msg| > 7 && msg[..7] == "Error: "
  {
    if r.Answer? then r.text else "Error: " + ErrorText(r)
  }

  /** `raise_for_status()` raises for the client and server error statuses. */
  predicate IsHttpError(status: int) {
    400 <= status < 600
  }

  /** The outcomes the call retries: HTTP status 500 exactly, and a timeout. */
  predicate Transient(o: Outcome) {
    o.Timeout? || (o.Response? && o.status == 500)
  }

  /** An attempt is followed by another when its outcome is transient and it is not the
      last attempt the loop allows. */
  predicate Retried(o: Outcome, attempt: int, retries: int) {
    Transient(o) && attempt < retries - 1
  }

  /** The result of an attempt that is not retried. */
  function Settle(o: Outcome): (r: CallResult)
    ensures !r.NotConfigured? && !r.Exhausted? && !r.SleepFailed?
    ensures r.HttpFailure? <==> o.Response? && IsHttpError(o.status)
    ensures r.TimedOut? <==> o.Timeout?
    ensures r.Answer? ==>
      o.Response? && !IsHttpError(o.status) && o.body.Some? && ExtractContent(o.body.value) == Content(r.text)
  {
    match o
    case Response(status, text, body) =>
      if IsHttpError(status) then HttpFailure(status, text)
      else
        (match body
         case None => InvalidFormat
         case Some(data) =>
           match ExtractContent(data)
           case Content(t) => Answer(t)
           case NoContent => NoValidContent
           case Fault(e) => Unexpected(ErrorName(e)))
    case Timeout => TimedOut
    case ConnectionFailure(detail) => ConnectFailed(detail)
    case Crash(detail) => Unexpected(detail)
  }

  function Pow2(k: nat): (r: nat)
    ensures r >= 1
  {
    if k == 0 then 1 else 2 * Pow2(k - 1)
  }

  /** The sleep before the attempt after attempt `attempt` (counted from 0). */
  function Delay(initialDelay: int, attempt: nat): int {
    initialDelay * Pow2(attempt)
  }

  /** Doubling adds exponents. */
  lemma {:induction false} Pow2Add(a: nat, b: nat)
    ensures Pow2(a + b) == Pow2(a) * Pow2(b)
    decreases a
  {
    if a > 0 {
      Pow2Add(a - 1, b);
    }
  }

  /** Doubling from 2 s, the sleep after attempt 32 is accepted and the next is not. */
  lemma DoublingFromTwo()
    ensures SleepAccepts(Delay(2, 32)) && Delay(2, 33) == 17179869184 && !SleepAccepts(Delay(2, 33))
  {
    Pow2At32();
  }

  lemma Pow2At32()
    ensures Pow2(32) == 4294967296 && Pow2(33) == 8589934592
  {
    assert Pow2(1) == 2;
    Pow2Add(1, 1);
    Pow2Add(2, 2);
    Pow2Add(4, 4);
    Pow2Add(8, 8);
    Pow2Add(16, 16);
    Pow2Add(32, 1);
  }

  /** The longest sleep, in whole seconds, that CPython's `time.sleep` accepts: it turns
      the seconds into nanoseconds held in a signed 64-bit integer, and 2^63 - 1
      nanoseconds is 9223372036.85... seconds. */
  const MaxSleep := 9223372036

  /** The delays `time.sleep` accepts. Beyond `MaxSleep` either way the conversion raises
      OverflowError; a delay that converts but is negative raises ValueError. */
  predicate SleepAccepts(delay: int) {
    0 <= delay <= MaxSleep
  }

  /** An attempt is followed by another when it is retried and `time.sleep` accepts its
      delay; otherwise `time.sleep` raises inside the handler, and no handler of that
      `try` catches it. */
  predicate Sleeps(o: Outcome, attempt: nat, retries: int, initialDelay: int) {
    Retried(o, attempt, retries) && SleepAccepts(Delay(initialDelay, attempt))
  }

  /** The delay is negative exactly when the initial delay is. */
  lemma DelaySign(initialDelay: int, attempt: nat)
    ensures Delay(initialDelay, attempt) >= 0 <==> initialDelay >= 0
    ensures Delay(initialDelay, 0) == initialDelay
  {
    if initialDelay < 0 {
      assert initialDelay * Pow2(attempt) <= initialDelay * 1;
    }
  }

  /** For a non-negative initial delay the delays never shrink. */
  lemma {:induction false} DelayGrows(initialDelay: int, j: nat, k: nat)
    requires initialDelay >= 0 && j <= k
    ensures Delay(initialDelay, j) <= Delay(initialDelay, k)
    decreases k - j
  {
    if j < k {
      DelayGrows(initialDelay, j + 1, k);
      assert Pow2(j + 1) == 2 * Pow2(j);
      assert initialDelay * Pow2(j) <= initialDelay * Pow2(j + 1);
    }
  }

  /** Every sleep a run of `retries` attempts may take is accepted: the initial delay is
      not negative and the last possible delay, before attempt `retries - 1`, is at most
      `MaxSleep`. */
  predicate ScheduleFits(initialDelay: int, retries: int) {
    0 <= initialDelay && (retries < 2 || Delay(initialDelay, retries - 2) <= MaxSleep)
  }

  /** A fitting schedule accepts the delay of every attempt that may be retried. */
  lemma ScheduleFitsEach(initialDelay: int, retries: int, k: nat)
    requires ScheduleFits(initialDelay, retries) && k < retries - 1
    ensures SleepAccepts(Delay(initialDelay, k))
  {
    DelayGrows(initialDelay, k, retries - 2);
    DelaySign(initialDelay, k);
  }

  // ---------------------------------------------------------------- the whole call

  /** How a run of the retry loop ends: an attempt's outcome settles the call, the
      attempts of every model run out, or `time.sleep` refuses a delay. */
  datatype End = Settled(outcome: Outcome) | OutOfModels | SleepRaised(delay: int)

  /** A run of the retry loop: how it ended, the model of each request sent, and the
      delays slept. */
  datatype Run = Run(end: End, requests: seq<string>, sleeps: seq<int>)

  function Prefixed(requests: seq<string>, sleeps: seq<int>, r: Run): Run {
    Run(r.end, requests + r.requests, sleeps + r.sleeps)
  }

  /** How an attempt that does not sleep ends the run. */
  function Stop(o: Outcome, attempt: nat, retries: int, initialDelay: int): End {
    if Retried(o, attempt, retries) then SleepRaised(Delay(initialDelay, attempt)) else Settled(o)
  }

  /** The retry loop as a state machine. State: attempt `attempt` of model `models[m]`,
      with `sent` requests issued so far. A transient outcome with attempts left moves to
      the next attempt after a sleep; any other outcome ends the run; a model whose
      attempts run out hands over to the next model; when the models run out the run ends
      without an outcome. */
  function Machine(models: seq<string>, m: nat, attempt: nat, respond: nat -> Outcome,
                   sent: nat, retries: int, initialDelay: int): Run
    decreases |models| - m, retries - attempt
  {
    if m >= |models| then Run(OutOfModels, [], [])
    else if attempt >= retries then Machine(models, m + 1, 0, respond, sent, retries, initialDelay)
    else
      var o := respond(sent);
      if Sleeps(o, attempt, retries, initialDelay) then
        Prefixed([models[m]], [Delay(initialDelay, attempt)],
                 Machine(models, m, attempt + 1, respond, sent + 1, retries, initialDelay))
      else Run(Stop(o, attempt, retries, initialDelay), [models[m]], [])
  }

  /** A finished call: the value returned, the model of each request sent, the delays slept. */
  datatype Trace = Trace(result: CallResult, requests: seq<string>, sleeps: seq<int>)

  /** The result of a run's end: the settled outcome, the summary error of the last line
      when the models ran out, or the exception `time.sleep` raised. */
  function Finish(e: End, retries: int): CallResult {
    match e
    case Settled(o) => Settle(o)
    case OutOfModels => Exhausted(retries)
    case SleepRaised(d) => SleepFailed(d)
  }

  /** The specification of `call_euron_api`: no key, no request; otherwise the machine,
      started at the first attempt of the primary model. */
  function Call(secrets: map<string, Json>, respond: nat -> Outcome, retries: int, initialDelay: int): Trace {
    if GetApiKey(secrets).None? then Trace(NotConfigured, [], [])
    else
      var r := Machine(Models, 0, 0, respond, 0, retries, initialDelay);
      Trace(Finish(r.end, retries), r.requests, r.sleeps)
  }

  /** What one pass of the attempt loop's body decides: sleep and go on to the next
      attempt, or leave the call. */
  datatype Step = Sleep(delay: int) | Return(result: CallResult)

  /** One pass of the attempt loop's body: the try block and its handlers. HTTP 500 and
      a timeout sleep and continue while attempts remain (the sleep raising for a refused
      delay); everything else returns. */
  method Attempt(outcome: Outcome, attempt: nat, retries: int, initialDelay: int) returns (step: Step)
    ensures step.Sleep? <==> Sleeps(outcome, attempt, retries, initialDelay)
    ensures step.Sleep? ==> step.delay == Delay(initialDelay, attempt)
    ensures Retried(outcome, attempt, retries) && step.Return? ==>
      step.result == SleepFailed(Delay(initialDelay, attempt))
    ensures !Retried(outcome, attempt, retries) ==> step == Return(Settle(outcome))
  {
    match outcome {
      case Response(status, text, body) =>
        if IsHttpError(status) {
          if status == 500 && attempt < retries - 1 {
            step := Backoff(initialDelay, attempt);
            return;
          }
          return Return(HttpFailure(status, text));
        }
        match body {
          case None =>
            return Return(InvalidFormat);
          case Some(data) =>
            var extracted := ExtractContent(data);
            match extracted {
              case Content(t) => return Return(Answer(t));
              case NoContent => return Return(NoValidContent);
              case Fault(e) => return Return(Unexpected(ErrorName(e)));
            }
        }
      case Timeout =>
        if attempt < retries - 1 {
          step := Backoff(initialDelay, attempt);
          return;
        }
        return Return(TimedOut);
      case ConnectionFailure(detail) =>
        return Return(ConnectFailed(detail));
      case Crash(detail) =>
        return Return(Unexpected(detail));
    }
  }

  /** `delay = initial_delay * (2 ** attempt)` and `time.sleep(delay)`, which raises
      for a delay it does not accept. */
  method Backoff(initialDelay: int, attempt: nat) returns (step: Step)
    ensures SleepAccepts(Delay(initialDelay, attempt)) ==> step == Sleep(Delay(initialDelay, attempt))
    ensures !SleepAccepts(Delay(initialDelay, attempt)) ==>
      step == Return(SleepFailed(Delay(initialDelay, attempt)))
  {
    var delay := initialDelay * Pow2(attempt);
    if !SleepAccepts(delay) {
      return Return(SleepFailed(delay));
    }
    return Sleep(delay);
  }

  /** `call_euron_api`: the key gate, then the loop over the models and, inside it, the
      loop over the attempts, left early by the first attempt that returns. */
  method CallEuronApi(secrets: map<string, Json>, respond: nat -> Outcome, retries: int, initialDelay: int)
    returns (result: CallResult, requests: seq<string>, sleeps: seq<int>)
    ensures Trace(result, requests, sleeps) == Call(secrets, respond, retries, initialDelay)
    ensures GetApiKey(secrets).None? <==> result == NotConfigured
    ensures result == NotConfigured ==> requests == [] && sleeps == []
  {
    var apiKey := GetApiKey(secrets);
    if apiKey.None? {
      return NotConfigured, [], [];
    }
    ghost var spec := Machine(Models, 0, 0, respond, 0, retries, initialDelay);
    assert Call(secrets, respond, retries, initialDelay) == Trace(Finish(spec.end, retries), spec.requests, spec.sleeps);
    requests, sleeps := [], [];
    var m := 0;
    while m < |Models|
      invariant 0 <= m <= |Models|
      invariant spec == Prefixed(requests, sleeps, Machine(Models, m, 0, respond, |requests|, retries, initialDelay))
    {
      var model := Models[m];
      var attempt := 0;
      while attempt < retries
        invariant 0 <= attempt
        invariant spec == Prefixed(requests, sleeps, Machine(Models, m, attempt, respond, |requests|, retries, initialDelay))
      {
        var outcome := respond(|requests|);
        var step := Attempt(outcome, attempt, retries, initialDelay);
        StepFollowsMachine(Models, m, attempt, respond, |requests|, retries, initialDelay, step);
        match step {
          case Return(r) =>
            assert spec == Run(Stop(outcome, attempt, retries, initialDelay), requests + [model], sleeps);
            requests := requests + [model];
            return r, requests, sleeps;
          case Sleep(delay) =>
            PrefixedTwice(requests, sleeps, [model], [delay],
                          Machine(Models, m, attempt + 1, respond, |requests| + 1, retries, initialDelay));
            requests := requests + [model];
            sleeps := sleeps + [delay];
            attempt := attempt + 1;
        }
      }
      MachineNextModel(Models, m, attempt, respond, |requests|, retries, initialDelay);
      m := m + 1;
    }
    assert spec == Run(OutOfModels, requests, sleeps);
    result := Exhausted(retries);
  }

  /** One step of the machine: an attempt either sleeps and retries or ends the run. */
  lemma MachineStep(models: seq<string>, m: nat, attempt: nat, respond: nat -> Outcome,
                    sent: nat, retries: int, initialDelay: int)
    requires m < |models| && attempt < retries
    ensures Sleeps(respond(sent), attempt, retries, initialDelay) ==>
      Machine(models, m, attempt, respond, sent, retries, initialDelay)
      == Prefixed([models[m]], [Delay(initialDelay, attempt)],
                  Machine(models, m, attempt + 1, respond, sent + 1, retries, initialDelay))
    ensures !Sleeps(respond(sent), attempt, retries, initialDelay) ==>
      Machine(models, m, attempt, respond, sent, retries, initialDelay)
      == Run(Stop(respond(sent), attempt, retries, initialDelay), [models[m]], [])
  {
  }

  /** The step `Attempt` decides for the outcome of request `sent` is the machine's step:
      a sleep of the machine's delay before the next attempt, or the result of how the
      machine's run ends. */
  lemma StepFollowsMachine(models: seq<string>, m: nat, attempt: nat, respond: nat -> Outcome,
                           sent: nat, retries: int, initialDelay: int, step: Step)
    requires m < |models| && attempt < retries
    requires step.Sleep? <==> Sleeps(respond(sent), attempt, retries, initialDelay)
    requires step.Sleep? ==> step.delay == Delay(initialDelay, attempt)
    requires Retried(respond(sent), attempt, retries) && step.Return? ==>
      step.result == SleepFailed(Delay(initialDelay, attempt))
    requires !Retried(respond(sent), attempt, retries) ==> step == Return(Settle(respond(sent)))
    ensures step.Sleep? ==>
      Machine(models, m, attempt, respond, sent, retries, initialDelay)
      == Prefixed([models[m]], [step.delay], Machine(models, m, attempt + 1, respond, sent + 1, retries, initialDelay))
    ensures step.Return? ==>
      && Machine(models, m, attempt, respond, sent, retries, initialDelay)
         == Run(Stop(respond(sent), attempt, retries, initialDelay), [models[m]], [])
      && Finish(Stop(respond(sent), attempt, retries, initialDelay), retries) == step.result
  {
    MachineStep(models, m, attempt, respond, sent, retries, initialDelay);
  }

  /** A model whose attempts have run out hands over to the next model. */
  lemma MachineNextModel(models: seq<string>, m: nat, attempt: nat, respond: nat -> Outcome,
                         sent: nat, retries: int, initialDelay: int)
    requires m < |models| && attempt >= retries
    ensures Machine(models, m, attempt, respond, sent, retries, initialDelay)
            == Machine(models, m + 1, 0, respond, sent, retries, initialDelay)
  {
  }

  lemma PrefixedTwice(requests: seq<string>, sleeps: seq<int>, requests': seq<string>, sleeps': seq<int>, r: Run)
    ensures Prefixed(requests, sleeps, Prefixed(requests', sleeps', r))
            == Prefixed(requests + requests', sleeps + sleeps', r)
  {
    assert requests + (requests' + r.requests) == (requests + requests') + r.requests;
    assert sleeps + (sleeps' + r.sleeps) == (sleeps + sleeps') + r.sleeps;
  }

  // ---------------------------------------------------------------- properties

  /** Inside one model, a run that starts with attempts left ends before the model's
      attempts run out, and every request it makes names that model. */
  lemma {:induction false} RunStaysOnModel(models: seq<string>, m: nat, attempt: nat, respond: nat -> Outcome,
                                           sent: nat, retries: int, initialDelay: int)
    requires m < |models| && attempt < retries
    ensures var r := Machine(models, m, attempt, respond, sent, retries, initialDelay);
      && !r.end.OutOfModels?
      && 1 <= |r.requests| <= retries - attempt
      && (forall i :: 0 <= i < |r.requests| ==> r.requests[i] == models[m])
      && |r.sleeps| == |r.requests| - 1
    decreases retries - attempt
  {
    if Sleeps(respond(sent), attempt, retries, initialDelay) {
      RunStaysOnModel(models, m, attempt + 1, respond, sent + 1, retries, initialDelay);
    }
  }

  /** `sleeps` are the delays after attempts `attempt`, `attempt + 1`, ... */
  predicate DoublingFrom(sleeps: seq<int>, initialDelay: int, attempt: nat) {
    forall k :: 0 <= k < |sleeps| ==> sleeps[k] == Delay(initialDelay, attempt + k)
  }

  /** Inside one model, the sleeps double from one attempt to the next. */
  lemma {:induction false} RunSleepsDouble(models: seq<string>, m: nat, attempt: nat, respond: nat -> Outcome,
                                           sent: nat, retries: int, initialDelay: int)
    requires m < |models| && attempt < retries
    ensures DoublingFrom(Machine(models, m, attempt, respond, sent, retries, initialDelay).sleeps, initialDelay, attempt)
    decreases retries - attempt
  {
    var r := Machine(models, m, attempt, respond, sent, retries, initialDelay);
    if Sleeps(respond(sent), attempt, retries, initialDelay) {
      RunSleepsDouble(models, m, attempt + 1, respond, sent + 1, retries, initialDelay);
      var rest := Machine(models, m, attempt + 1, respond, sent + 1, retries, initialDelay);
      assert r.sleeps == [Delay(initialDelay, attempt)] + rest.sleeps;
      forall k | 1 <= k < |r.sleeps| ensures r.sleeps[k] == Delay(initialDelay, attempt + k) {
        assert r.sleeps[k] == rest.sleeps[k - 1];
      }
    }
  }

  /** Inside one model, every request but the last slept (so its outcome was transient),
      and the run ends at its last request, the first that does not sleep: its outcome
      settles the call, or, when it is retried, its sleep raises. */
  lemma {:induction false} RunRetriesTransients(models: seq<string>, m: nat, attempt: nat, respond: nat -> Outcome,
                                                sent: nat, retries: int, initialDelay: int)
    requires m < |models| && attempt < retries
    ensures var r := Machine(models, m, attempt, respond, sent, retries, initialDelay);
      var last := |r.requests| - 1;
      && |r.requests| >= 1
      && (forall j :: sent <= j < sent + last ==> Sleeps(respond(j), attempt + (j - sent), retries, initialDelay))
      && !Sleeps(respond(sent + last), attempt + last, retries, initialDelay)
      && r.end == Stop(respond(sent + last), attempt + last, retries, initialDelay)
    decreases retries - attempt
  {
    if Sleeps(respond(sent), attempt, retries, initialDelay) {
      RunRetriesTransients(models, m, attempt + 1, respond, sent + 1, retries, initialDelay);
      var r := Machine(models, m, attempt, respond, sent, retries, initialDelay);
      var rest := Machine(models, m, attempt + 1, respond, sent + 1, retries, initialDelay);
      assert r.requests == [models[m]] + rest.requests;
    }
  }

  /** With no attempts allowed, every model is skipped and nothing is requested. */
  lemma {:induction false} NoAttemptsExhausts(models: seq<string>, m: nat, respond: nat -> Outcome,
                                              sent: nat, retries: int, initialDelay: int)
    requires retries <= 0
    ensures Machine(models, m, 0, respond, sent, retries, initialDelay) == Run(OutOfModels, [], [])
    decreases |models| - m
  {
    if m < |models| {
      NoAttemptsExhausts(models, m + 1, respond, sent, retries, initialDelay);
    }
  }

  /** With at least one attempt allowed, the fallback model is never requested and the
      summary error of the last line is never returned: every path through the primary
      model's last attempt returns. Between 1 and `retries` requests are made. */
  lemma CallNeverFallsBack(secrets: map<string, Json>, respond: nat -> Outcome, retries: int, initialDelay: int)
    requires GetApiKey(secrets).Some? && retries >= 1
    ensures var t := Call(secrets, respond, retries, initialDelay);
      && 1 <= |t.requests| <= retries
      && FallbackModel !in t.requests
      && (forall i :: 0 <= i < |t.requests| ==> t.requests[i] == EuronModel)
      && !t.result.Exhausted?
  {
    RunStaysOnModel(Models, 0, 0, respond, 0, retries, initialDelay);
    var r := Machine(Models, 0, 0, respond, 0, retries, initialDelay);
    assert !Finish(r.end, retries).Exhausted?;
    assert forall i :: 0 <= i < |r.requests| ==> r.requests[i] != FallbackModel;
  }

  /** With at least one attempt allowed, only transient outcomes are retried, the sleep
      before attempt k+1 is `initialDelay * 2^k`, and the last request ends the call: its
      outcome decides the result when `time.sleep` accepts every delay of the schedule. */
  lemma CallRetrySchedule(secrets: map<string, Json>, respond: nat -> Outcome, retries: int, initialDelay: int)
    requires GetApiKey(secrets).Some? && retries >= 1
    ensures var t := Call(secrets, respond, retries, initialDelay);
      var last := |t.requests| - 1;
      && |t.requests| >= 1
      && |t.sleeps| == last
      && (forall k :: 0 <= k < |t.sleeps| ==> t.sleeps[k] == initialDelay * Pow2(k))
      && (forall j :: 0 <= j < last ==> Transient(respond(j)))
      && t.result == Finish(Stop(respond(last), last, retries, initialDelay), retries)
      && (ScheduleFits(initialDelay, retries) ==> t.result == Settle(respond(last)))
  {
    RunStaysOnModel(Models, 0, 0, respond, 0, retries, initialDelay);
    RunSleepsDouble(Models, 0, 0, respond, 0, retries, initialDelay);
    RunRetriesTransients(Models, 0, 0, respond, 0, retries, initialDelay);
    var t := Call(secrets, respond, retries, initialDelay);
    var r := Machine(Models, 0, 0, respond, 0, retries, initialDelay);
    assert t.requests == r.requests;
    var last := |t.requests| - 1;
    forall j | 0 <= j < last ensures Transient(respond(j)) {
      assert Sleeps(respond(j), 0 + (j - 0), retries, initialDelay);
    }
    if ScheduleFits(initialDelay, retries) && last < retries - 1 {
      ScheduleFitsEach(initialDelay, retries, last);
    }
  }

  /** Transient outcomes up to request `n`, with every delay before attempt `n` accepted and
      the delay after it refused: the call ends with the sleep error of that delay, after
      `n + 1` requests and `n` sleeps. */
  lemma RefusedSleepEndsCall(secrets: map<string, Json>, respond: nat -> Outcome, retries: int,
                             initialDelay: int, n: nat)
    requires GetApiKey(secrets).Some? && n < retries - 1
    requires forall k :: 0 <= k <= n ==> Transient(respond(k))
    requires forall k :: 0 <= k < n ==> SleepAccepts(Delay(initialDelay, k))
    requires !SleepAccepts(Delay(initialDelay, n))
    ensures var t := Call(secrets, respond, retries, initialDelay);
      && t.result == SleepFailed(Delay(initialDelay, n))
      && |t.requests| == n + 1 && |t.sleeps| == n
  {
    RunStaysOnModel(Models, 0, 0, respond, 0, retries, initialDelay);
    RunRetriesTransients(Models, 0, 0, respond, 0, retries, initialDelay);
    var r := Machine(Models, 0, 0, respond, 0, retries, initialDelay);
    FirstRefusal(respond, retries, initialDelay, n, |r.requests| - 1);
  }

  /** The first attempt that does not sleep, in a run of transient outcomes, is the first
      whose delay is refused. */
  lemma FirstRefusal(respond: nat -> Outcome, retries: int, initialDelay: int, n: nat, last: nat)
    requires n < retries - 1
    requires forall k :: 0 <= k <= n ==> Transient(respond(k))
    requires forall k :: 0 <= k < n ==> SleepAccepts(Delay(initialDelay, k))
    requires !SleepAccepts(Delay(initialDelay, n))
    requires forall j :: 0 <= j < last ==> Sleeps(respond(j), j, retries, initialDelay)
    requires !Sleeps(respond(last), last, retries, initialDelay)
    ensures last == n
  {
    forall k | 0 <= k < n ensures Sleeps(respond(k), k, retries, initialDelay) {
      assert Transient(respond(k)) && SleepAccepts(Delay(initialDelay, k));
    }
    assert !Sleeps(respond(n), n, retries, initialDelay);
  }

  /** Doubling from an initial delay of 2 s, the sleep after the 34th transient outcome in
      a row is 2 * 2^33 s, beyond `MaxSleep`: that sleep raises OverflowError and ends the
      call after 34 requests and 33 sleeps. */
  lemma LongScheduleOverflows(secrets: map<string, Json>, respond: nat -> Outcome, retries: int)
    requires GetApiKey(secrets).Some? && retries >= 35
    requires forall k :: 0 <= k <= 33 ==> Transient(respond(k))
    ensures var t := Call(secrets, respond, retries, 2);
      && t.result == SleepFailed(17179869184)
      && |t.requests| == 34 && |t.sleeps| == 33
  {
    DoublingFromTwo();
    forall k | 0 <= k < 33 ensures SleepAccepts(Delay(2, k)) {
      DelayGrows(2, k, 32);
    }
    RefusedSleepEndsCall(secrets, respond, retries, 2, 33);
  }

  /** With an initial delay `time.sleep` refuses (negative, or beyond `MaxSleep`) the
      first retry already fails: the call ends after one request, settled by its outcome,
      or with the exception of `time.sleep` when that outcome is retried. */
  lemma RefusedDelayRaises(secrets: map<string, Json>, respond: nat -> Outcome, retries: int, initialDelay: int)
    requires GetApiKey(secrets).Some? && retries >= 1 && !SleepAccepts(initialDelay)
    ensures Call(secrets, respond, retries, initialDelay)
            == if Retried(respond(0), 0, retries) then Trace(SleepFailed(initialDelay), [EuronModel], [])
               else Trace(Settle(respond(0)), [EuronModel], [])
  {
    DelaySign(initialDelay, 0);
    MachineStep(Models, 0, 0, respond, 0, retries, initialDelay);
  }

  /** The summary error ("Failed to get response with models ...") is returned exactly
      when a key is configured and `retries <= 0`, and then no request is made. */
  lemma ExhaustedOnlyWithoutRetries(secrets: map<string, Json>, respond: nat -> Outcome, retries: int, initialDelay: int)
    ensures var t := Call(secrets, respond, retries, initialDelay);
      t.result.Exhausted? <==> GetApiKey(secrets).Some? && retries <= 0
    ensures var t := Call(secrets, respond, retries, initialDelay);
      t.result.Exhausted? ==> t.requests == [] && t.sleeps == []
  {
    if GetApiKey(secrets).Some? {
      if retries <= 0 {
        NoAttemptsExhausts(Models, 0, respond, 0, retries, initialDelay);
      } else {
        CallNeverFallsBack(secrets, respond, retries, initialDelay);
      }
    }
  }

  /** A call never makes more requests than `retries` (none when `retries <= 0`). */
  lemma RequestsBounded(secrets: map<string, Json>, respond: nat -> Outcome, retries: int, initialDelay: int)
    ensures |Call(secrets, respond, retries, initialDelay).requests| <= if retries < 0 then 0 else retries
  {
    if GetApiKey(secrets).Some? {
      if retries <= 0 {
        NoAttemptsExhausts(Models, 0, respond, 0, retries, initialDelay);
      } else {
        CallNeverFallsBack(secrets, respond, retries, initialDelay);
      }
    }
  }

  /** A non-transient first outcome (a non-500 HTTP error, a reply, a connection error or
      any other exception) ends the call after that single request. */
  lemma PermanentFailureStops(secrets: map<string, Json>, respond: nat -> Outcome, retries: int, initialDelay: int)
    requires GetApiKey(secrets).Some? && retries >= 1 && !Transient(respond(0))
    ensures Call(secrets, respond, retries, initialDelay)
            == Trace(Settle(respond(0)), [EuronModel], [])
  {
    assert Machine(Models, 0, 0, respond, 0, retries, initialDelay) == Run(Settled(respond(0)), [EuronModel], []);
  }

  /** HTTP 500 on every request: `retries` requests to the primary model, then the HTTP
      error of the last one (not a switch to the fallback model). */
  lemma PersistentServerError(secrets: map<string, Json>, respond: nat -> Outcome, retries: int, initialDelay: int)
    requires GetApiKey(secrets).Some? && retries >= 1 && ScheduleFits(initialDelay, retries)
    requires forall k :: 0 <= k < retries ==> respond(k).Response? && respond(k).status == 500
    ensures var t := Call(secrets, respond, retries, initialDelay);
      && |t.requests| == retries
      && t.result == HttpFailure(500, respond(retries - 1).text)
  {
    RunStaysOnModel(Models, 0, 0, respond, 0, retries, initialDelay);
    RunRetriesTransients(Models, 0, 0, respond, 0, retries, initialDelay);
    var t := Call(secrets, respond, retries, initialDelay);
    var last := |t.requests| - 1;
    if last < retries - 1 {
      ScheduleFitsEach(initialDelay, retries, last);
    }
  }

  /** A timeout on every request: `retries` requests, then the timeout error. */
  lemma PersistentTimeout(secrets: map<string, Json>, respond: nat -> Outcome, retries: int, initialDelay: int)
    requires GetApiKey(secrets).Some? && retries >= 1 && ScheduleFits(initialDelay, retries)
    requires forall k :: 0 <= k < retries ==> respond(k) == Timeout
    ensures var t := Call(secrets, respond, retries, initialDelay);
      |t.requests| == retries && t.result == TimedOut
  {
    RunStaysOnModel(Models, 0, 0, respond, 0, retries, initialDelay);
    RunRetriesTransients(Models, 0, 0, respond, 0, retries, initialDelay);
    var t := Call(secrets, respond, retries, initialDelay);
    var last := |t.requests| - 1;
    if last < retries - 1 {
      ScheduleFitsEach(initialDelay, retries, last);
    }
  }

  /** A reply with a success status and readable content settles to its text. */
  lemma SettlesToAnswer(o: Outcome, text: string)
    requires o.Response? && !IsHttpError(o.status) && o.body.Some?
    requires ExtractContent(o.body.value) == Content(text)
    ensures Settle(o) == Answer(text)
  {
  }

  /** A retried first attempt followed by a second attempt that is not retried. */
  lemma {:induction false} RetriedOnce(respond: nat -> Outcome, retries: int, initialDelay: int)
    requires retries >= 2 && SleepAccepts(initialDelay) && Transient(respond(0)) && !Transient(respond(1))
    ensures Machine(Models, 0, 0, respond, 0, retries, initialDelay)
            == Run(Settled(respond(1)), [EuronModel, EuronModel], [initialDelay])
  {
    DelaySign(initialDelay, 0);
    MachineStep(Models, 0, 1, respond, 1, retries, initialDelay);
    MachineStep(Models, 0, 0, respond, 0, retries, initialDelay);
  }

  /** A 500 on the first attempt and a readable reply on the second: the stripped text of
      that reply, after two requests to the primary model and one sleep of `initialDelay`. */
  lemma SuccessOnSecondAttempt(secrets: map<string, Json>, respond: nat -> Outcome, retries: int,
                               initialDelay: int, text: string)
    requires GetApiKey(secrets).Some? && retries >= 2 && SleepAccepts(initialDelay)
    requires respond(0).Response? && respond(0).status == 500
    requires respond(1).Response? && 200 <= respond(1).status < 300 && respond(1).body.Some?
    requires ExtractContent(respond(1).body.value) == Content(text)
    ensures Call(secrets, respond, retries, initialDelay)
            == Trace(Answer(text), [EuronModel, EuronModel], [initialDelay])
  {
    SettlesToAnswer(respond(1), text);
    RetriedOnce(respond, retries, initialDelay);
  }
}
