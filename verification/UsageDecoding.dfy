/** What one JSON document says about usage: the decision part of decodeCompletionUsageEvidence.
    Turning bytes into fields is encoding/json's work and stays a parameter, the `Codec`. */
module UsageDecoding {
  import opened ByteStrings
  import opened Common

  datatype Usage = Usage(promptTokens: int, completionTokens: int, meanITL: int, generationTime: int)

  datatype Evidence = Unavailable | Available(usage: Usage) | Malformed

  datatype Format = Completions | Responses

  datatype TokenCounts = TokenCounts(prompt: Option<int>, completion: Option<int>)

  datatype Metrics = Metrics(meanITL: Option<real>, generationTime: Option<real>)

  datatype CompletionsEnvelope =
    CompletionsEnvelope(choicesPresent: bool, choicesEmpty: bool, usage: Option<TokenCounts>, metrics: Option<Metrics>)

  /** `usage` carries input tokens as `prompt` and output tokens as `completion`. */
  datatype ResponsesEnvelope = ResponsesEnvelope(usage: Option<TokenCounts>)

  datatype ResponsesEvent = ResponsesEvent(completed: bool, response: Option<ResponsesEnvelope>)

  /** json.Unmarshal into each of the three document shapes; None is an unmarshalling error. */
  datatype Codec = Codec(
    completions: Bytes -> Option<CompletionsEnvelope>,
    responses: Bytes -> Option<ResponsesEnvelope>,
    responsesEvent: Bytes -> Option<ResponsesEvent>)

  /** float64(math.MaxInt64) rounds up to 2^63. */
  const MAX_NANOSECONDS: real := 9223372036854775808.0

  const INT64_LIMIT: int := 0x8000_0000_0000_0000

  /** Conversion of a whole number of nanoseconds to int64. Out of range it is up to the platform;
      amd64, the deployment target, yields the least int64. */
  function ToDuration(nanoseconds: nat): int {
    if nanoseconds < INT64_LIMIT then nanoseconds else -INT64_LIMIT
  }

  /** The nanosecond count of `metric`, if there is one, is at most 2^63 - 1. */
  predicate Fits(metric: Option<real>) {
    metric.Some? ==> metric.value * 1000000.0 <= MAX_NANOSECONDS - 1.0
  }

  /** Milliseconds to whole nanoseconds, rounded up. The guard lets through products above 2^63 - 1,
      and for exactly those the duration is negative. */
  function MillisecondsDuration(value: real): (r: Option<int>)
    ensures r.Some? <==> 0.0 < value && value * 1000000.0 <= MAX_NANOSECONDS
    ensures r.Some? ==> -INT64_LIMIT <= r.value < INT64_LIMIT
    ensures r.Some? ==> (0 <= r.value <==> Fits(Some(value)))
    ensures r.Some? && Fits(Some(value)) ==>
              0 < r.value && (r.value - 1) as real < value * 1000000.0 <= r.value as real
  {
    if value <= 0.0 then None
    else
      var nanoseconds := value * 1000000.0;
      if nanoseconds > MAX_NANOSECONDS then None else Some(ToDuration(-((-nanoseconds).Floor)))
  }

  /** The product 2^63 passes the guard and comes out negative. */
  lemma DurationCanOverflow()
    ensures MillisecondsDuration(9223372036854.775808) == Some(-INT64_LIMIT)
  {
    assert 9223372036854.775808 * 1000000.0 == MAX_NANOSECONDS;
  }

  /** A metric that is absent counts as zero; a present one must convert. */
  function MetricDuration(metric: Option<real>): Option<int> {
    if metric.None? then Some(0) else MillisecondsDuration(metric.value)
  }

  predicate MetricsConvert(metrics: Option<Metrics>) {
    metrics.Some? ==> MetricDuration(metrics.value.meanITL).Some? && MetricDuration(metrics.value.generationTime).Some?
  }

  ghost predicate IsPositivePart(n: int, tokens: Option<int>) {
    n >= 0 && (n > 0 <==> tokens.Some? && tokens.value > 0) && (n > 0 ==> n == tokens.value)
  }

  function PositiveOrZero(tokens: Option<int>): int {
    if tokens.Some? && tokens.value > 0 then tokens.value else 0
  }

  /** Final usage only: a stream reports it on the chunk without choices, a document beside its choices. */
  function DecodeCompletions(parsed: Option<CompletionsEnvelope>, streaming: bool): (r: Evidence)
    ensures r.Available? <==>
            && parsed.Some? && parsed.value.usage.Some?
            && parsed.value.choicesPresent && parsed.value.choicesEmpty == streaming
            && parsed.value.usage.value.completion.Some? && parsed.value.usage.value.completion.value >= 0
            && MetricsConvert(parsed.value.metrics)
    ensures r.Available? ==>
              && r.usage.completionTokens == parsed.value.usage.value.completion.value
              && IsPositivePart(r.usage.promptTokens, parsed.value.usage.value.prompt)
              && (parsed.value.metrics.None? ==> r.usage.meanITL == r.usage.generationTime == 0)
              && (parsed.value.metrics.Some? ==>
                    && MetricDuration(parsed.value.metrics.value.meanITL) == Some(r.usage.meanITL)
                    && MetricDuration(parsed.value.metrics.value.generationTime) == Some(r.usage.generationTime))
    ensures r.Unavailable? <==>
            && parsed.Some?
            && (parsed.value.usage.None? ||
                (streaming && parsed.value.usage.value.completion.Some?
                 && parsed.value.choicesPresent && !parsed.value.choicesEmpty))
  {
    if parsed.None? then Malformed
    else
      var envelope := parsed.value;
      if envelope.usage.None? then Unavailable
      else if envelope.usage.value.completion.None? then Malformed
      else if !envelope.choicesPresent then Malformed
      else if streaming && !envelope.choicesEmpty then Unavailable
      else if !streaming && envelope.choicesEmpty then Malformed
      else
        var completion := envelope.usage.value.completion.value;
        if completion < 0 then Malformed
        else
          var metrics := if envelope.metrics.Some? then envelope.metrics.value else Metrics(None, None);
          var mean := MetricDuration(metrics.meanITL);
          var generation := MetricDuration(metrics.generationTime);
          if mean.None? || generation.None? then Malformed
          else Available(Usage(PositiveOrZero(envelope.usage.value.prompt), completion, mean.value, generation.value))
  }

  function DecodeResponsesEnvelope(envelope: Option<ResponsesEnvelope>): (r: Evidence)
    ensures r.Unavailable? <==> envelope.None? || envelope.value.usage.None?
    ensures r.Available? <==>
            && envelope.Some? && envelope.value.usage.Some?
            && envelope.value.usage.value.completion.Some? && envelope.value.usage.value.completion.value >= 0
    ensures r.Available? ==>
              && r.usage.completionTokens == envelope.value.usage.value.completion.value
              && IsPositivePart(r.usage.promptTokens, envelope.value.usage.value.prompt)
              && r.usage.meanITL == r.usage.generationTime == 0
  {
    if envelope.None? || envelope.value.usage.None? then Unavailable
    else
      var counts := envelope.value.usage.value;
      if counts.completion.None? || counts.completion.value < 0 then Malformed
      else Available(Usage(PositiveOrZero(counts.prompt), counts.completion.value, 0, 0))
  }

  function DecodeResponses(codec: Codec, payload: Bytes, streaming: bool): Evidence {
    if streaming then
      var event := codec.responsesEvent(payload);
      if event.None? then Malformed
      else if !event.value.completed then Unavailable
      else DecodeResponsesEnvelope(event.value.response)
    else
      var envelope := codec.responses(payload);
      if envelope.None? then Malformed else DecodeResponsesEnvelope(envelope)
  }

  /** No token count is negative. */
  ghost predicate Trustworthy(usage: Usage) {
    0 <= usage.promptTokens && 0 <= usage.completionTokens
  }

  /** The timings a document carries; none in the Responses format. */
  function MetricsOf(codec: Codec, payload: Bytes, format: Format): Metrics {
    var parsed := codec.completions(payload);
    if format.Completions? && parsed.Some? && parsed.value.metrics.Some? then parsed.value.metrics.value
    else Metrics(None, None)
  }

  /** Both durations are int64 values, and each is negative exactly if its metric does not fit. */
  ghost predicate TimedBy(usage: Usage, metrics: Metrics) {
    && -INT64_LIMIT <= usage.meanITL < INT64_LIMIT
    && -INT64_LIMIT <= usage.generationTime < INT64_LIMIT
    && (0 <= usage.meanITL <==> Fits(metrics.meanITL))
    && (0 <= usage.generationTime <==> Fits(metrics.generationTime))
  }

  /** Whatever the JSON library returns, a usage that is accepted has no negative token count, and a
      negative duration exactly where the document's metric is out of range. */
  function Decode(codec: Codec, payload: Bytes, streaming: bool, format: Format): (r: Evidence)
    ensures r.Available? ==> Trustworthy(r.usage) && TimedBy(r.usage, MetricsOf(codec, payload, format))
  {
    if format.Responses? then DecodeResponses(codec, payload, streaming)
    else DecodeCompletions(codec.completions(payload), streaming)
  }

  /** An accepted usage can have a negative duration. */
  lemma UsageCanBeNegative(codec: Codec, payload: Bytes)
    requires codec.completions(payload)
          == Some(CompletionsEnvelope(true, false, Some(TokenCounts(None, Some(5))),
                                      Some(Metrics(Some(9223372036854.775808), None))))
    ensures Decode(codec, payload, false, Completions) == Available(Usage(0, 5, -INT64_LIMIT, 0))
  {
    DurationCanOverflow();
  }

  /** What a dispatched event contributes to the verdict. */
  datatype Signal = Silent | Done | Found(usage: Usage) | Broken

  type Classifier = Bytes -> Signal

  function Classify(codec: Codec, format: Format, eventData: Bytes): (r: Signal)
    ensures r.Found? ==>
              Trustworthy(r.usage) && TimedBy(r.usage, MetricsOf(codec, TrimSpace(eventData), format))
    ensures r.Done? <==> TrimSpace(eventData) == DONE_MARK
    ensures r.Found? || r.Broken? ==> Contains(TrimSpace(eventData), USAGE_KEY)
  {
    var data := TrimSpace(eventData);
    if data == DONE_MARK then Done
    else if data == [] || !Contains(data, USAGE_KEY) then Silent
    else
      match Decode(codec, data, true, format)
      case Unavailable => Silent
      case Available(usage) => Found(usage)
      case Malformed => Broken
  }

  function ClassifierOf(codec: Codec, format: Format): Classifier {
    data => Classify(codec, format, data)
  }

  // ---- what is decoded, from the codec's fields alone ----

  /** A metric in milliseconds, if present, is positive and at most 2^63 nanoseconds. */
  ghost predicate InRange(metric: Option<real>) {
    metric.Some? ==> 0.0 < metric.value && metric.value * 1000000.0 <= 9223372036854775808.0
  }

  /** `duration` is zero for an absent metric; else it is the metric in nanoseconds, rounded up, or the
      least int64 for a count that does not fit. */
  ghost predicate IsDuration(duration: int, metric: Option<real>) {
    if metric.None? then duration == 0
    else if metric.value * 1000000.0 <= 9223372036854775807.0 then
      (duration - 1) as real < metric.value * 1000000.0 <= duration as real
    else duration == -9223372036854775808
  }

  lemma MetricMeaning(metric: Option<real>)
    ensures MetricDuration(metric).Some? <==> InRange(metric)
    ensures MetricDuration(metric).Some? ==> IsDuration(MetricDuration(metric).value, metric)
  {
  }

  /** The document parsed, has usage with a non-negative completion count beside choices that are empty
      as `emptyChoices` says, and its timings are in range. */
  ghost predicate FinalUsage(parsed: Option<CompletionsEnvelope>, emptyChoices: bool) {
    && parsed.Some? && parsed.value.usage.Some?
    && parsed.value.choicesPresent && parsed.value.choicesEmpty == emptyChoices
    && parsed.value.usage.value.completion.Some? && parsed.value.usage.value.completion.value >= 0
    && (parsed.value.metrics.Some? ==>
          InRange(parsed.value.metrics.value.meanITL) && InRange(parsed.value.metrics.value.generationTime))
  }

  ghost predicate HasFigures(usage: Usage, envelope: CompletionsEnvelope)
    requires envelope.usage.Some? && envelope.usage.value.completion.Some?
  {
    var counts := envelope.usage.value;
    && usage.completionTokens == counts.completion.value
    && usage.promptTokens == (if counts.prompt.Some? && counts.prompt.value > 0 then counts.prompt.value else 0)
    && IsDuration(usage.meanITL, if envelope.metrics.Some? then envelope.metrics.value.meanITL else None)
    && IsDuration(usage.generationTime, if envelope.metrics.Some? then envelope.metrics.value.generationTime else None)
  }

  /** A Completions document, on a stream or whole: when it reports usage, with which figures, and when
      it says nothing; anything else is malformed. */
  lemma CompletionsDecoded(codec: Codec, payload: Bytes, streaming: bool)
    ensures var r := Decode(codec, payload, streaming, Completions);
            var parsed := codec.completions(payload);
            && (r.Available? <==> FinalUsage(parsed, streaming))
            && (r.Available? ==> HasFigures(r.usage, parsed.value))
            && (r.Unavailable? <==>
                  && parsed.Some?
                  && (parsed.value.usage.None? ||
                      (streaming && parsed.value.usage.value.completion.Some?
                       && parsed.value.choicesPresent && !parsed.value.choicesEmpty)))
  {
    var parsed := codec.completions(payload);
    if parsed.Some? && parsed.value.metrics.Some? {
      MetricMeaning(parsed.value.metrics.value.meanITL);
      MetricMeaning(parsed.value.metrics.value.generationTime);
    }
  }

  /** The Responses usage of `counts`: output tokens as they are, input tokens if positive, no timings. */
  function ResponsesUsage(counts: TokenCounts): Usage
    requires counts.completion.Some?
  {
    Usage(if counts.prompt.Some? && counts.prompt.value > 0 then counts.prompt.value else 0,
          counts.completion.value, 0, 0)
  }

  /** A Responses stream event counts only if it is the completed one and its response has usage. */
  lemma ResponsesEventDecoded(codec: Codec, payload: Bytes)
    ensures var r := Decode(codec, payload, true, Responses);
            var event := codec.responsesEvent(payload);
            && (r.Available? <==>
                  && event.Some? && event.value.completed
                  && event.value.response.Some? && event.value.response.value.usage.Some?
                  && event.value.response.value.usage.value.completion.Some?
                  && event.value.response.value.usage.value.completion.value >= 0)
            && (r.Available? ==> r.usage == ResponsesUsage(event.value.response.value.usage.value))
            && (r.Unavailable? <==>
                  && event.Some?
                  && (!event.value.completed || event.value.response.None?
                      || event.value.response.value.usage.None?))
  {
  }

  lemma ResponsesDocumentDecoded(codec: Codec, payload: Bytes)
    ensures var r := Decode(codec, payload, false, Responses);
            var document := codec.responses(payload);
            && (r.Available? <==>
                  && document.Some? && document.value.usage.Some?
                  && document.value.usage.value.completion.Some?
                  && document.value.usage.value.completion.value >= 0)
            && (r.Available? ==> r.usage == ResponsesUsage(document.value.usage.value))
            && (r.Unavailable? <==> document.Some? && document.value.usage.None?)
  {
  }

  // ---- what an event contributes ----

  /** `[DONE]` and `"usage"`, spelled out. */
  ghost predicate IsDoneMark(d: Bytes) {
    d == [91, 68, 79, 78, 69, 93]
  }

  ghost predicate MentionsUsage(d: Bytes) {
    exists before: Bytes, after: Bytes :: d == before + [34, 117, 115, 97, 103, 101, 34] + after
  }

  /** Trimmed data decides alone: `[DONE]` is terminal, and data without `"usage"` says nothing. */
  lemma SignalKind(codec: Codec, format: Format, eventData: Bytes)
    ensures var d := TrimSpace(eventData);
            var r := Classify(codec, format, eventData);
            && (r.Done? <==> IsDoneMark(d))
            && (!IsDoneMark(d) && !MentionsUsage(d) ==> r.Silent?)
  {
    ContainsMeaning(TrimSpace(eventData), USAGE_KEY);
  }

  /** A Completions event: found with the chunk's figures, broken, or silent, by the chunk's fields. */
  lemma CompletionsSignal(codec: Codec, eventData: Bytes)
    requires !IsDoneMark(TrimSpace(eventData)) && MentionsUsage(TrimSpace(eventData))
    ensures var r := Classify(codec, Completions, eventData);
            var parsed := codec.completions(TrimSpace(eventData));
            && (r.Found? <==> FinalUsage(parsed, true))
            && (r.Found? ==> HasFigures(r.usage, parsed.value))
            && (r.Broken? <==>
                  || parsed.None?
                  || (parsed.value.usage.Some? &&
                      (|| parsed.value.usage.value.completion.None?
                       || !parsed.value.choicesPresent
                       || (parsed.value.choicesEmpty && !FinalUsage(parsed, true)))))
            && !r.Done?
  {
    var d := TrimSpace(eventData);
    ContainsMeaning(d, USAGE_KEY);
    assert d != [];
    CompletionsDecoded(codec, d, true);
  }

  /** A Responses event likewise. */
  lemma ResponsesSignal(codec: Codec, eventData: Bytes)
    requires !IsDoneMark(TrimSpace(eventData)) && MentionsUsage(TrimSpace(eventData))
    ensures var r := Classify(codec, Responses, eventData);
            var event := codec.responsesEvent(TrimSpace(eventData));
            && (r.Found? <==>
                  && event.Some? && event.value.completed
                  && event.value.response.Some? && event.value.response.value.usage.Some?
                  && event.value.response.value.usage.value.completion.Some?
                  && event.value.response.value.usage.value.completion.value >= 0)
            && (r.Found? ==> r.usage == ResponsesUsage(event.value.response.value.usage.value))
            && (r.Broken? <==>
                  || event.None?
                  || (&& event.value.completed
                      && event.value.response.Some? && event.value.response.value.usage.Some?
                      && (event.value.response.value.usage.value.completion.None?
                          || event.value.response.value.usage.value.completion.value < 0)))
            && !r.Done?
  {
    var d := TrimSpace(eventData);
    ContainsMeaning(d, USAGE_KEY);
    assert d != [];
    ResponsesEventDecoded(codec, d);
  }
}
