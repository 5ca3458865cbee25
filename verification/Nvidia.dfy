/** NVIDIA evidence payloads: normalisation, and the guarantee when evidence is required. */
module Nvidia {
  import opened Common
  import Text

  datatype Json =
    | Null
    | Bool(value: bool)
    | Number(number: real)
    | String(text: string)
    | Array(items: seq<Json>)
    | Object(members: map<string, Json>)

  /** normalizeNVIDIAPayload on the parsed document. `raw` is None for text that is empty or not JSON;
      the result is None for an error. A JSON null decodes to an empty map, any other non-object does
      not decode. */
  function Normalize(raw: Option<Json>, nonce: string, arch: string): Option<Json> {
    if raw.None? || !(raw.value.Object? || raw.value.Null?) then None
    else
      var payload := if raw.value.Object? then raw.value.members else map[];
      if "evidence_list" in payload then
        var named := if "nonce" in payload then payload else payload["nonce" := String(nonce)];
        Some(Object(if "arch" in named then named else named["arch" := String(arch)]))
      else if "evidences" in payload then
        var own := "arch" in payload && payload["arch"].String? && payload["arch"].text != "";
        Some(Envelope(nonce, payload["evidences"], if own then payload["arch"].text else arch))
      else if "evidence" in payload && payload["evidence"].String? && payload["evidence"].text != "" then
        Some(Envelope(nonce, Array([Object(payload)]), arch))
      else None
  }

  function Envelope(nonce: string, evidence: Json, arch: string): Json {
    Object(map["nonce" := String(nonce), "evidence_list" := evidence, "arch" := String(arch)])
  }

  /** A non-empty array with no null in it. */
  ghost predicate HasEvidence(j: Json) {
    && j.Object? && "evidence_list" in j.members
    && j.members["evidence_list"].Array?
    && j.members["evidence_list"].items != []
    && Null !in j.members["evidence_list"].items
  }

  /** requireNonEmptyNVIDIAEvidence; a JSON null list unmarshals to an empty one. */
  method RequireNonEmptyEvidence(normalized: Json) returns (ok: bool)
    ensures ok <==> HasEvidence(normalized)
  {
    if !normalized.Object? || "evidence_list" !in normalized.members {
      return false;
    }
    var list := normalized.members["evidence_list"];
    if !list.Array? || |list.items| == 0 {
      return false;
    }
    for i := 0 to |list.items|
      invariant Null !in list.items[..i]
    {
      if list.items[i] == Null {
        return false;
      }
    }
    assert list.items[..|list.items|] == list.items;
    return true;
  }

  datatype Config = Config(arch: string, hasURL: bool, hasCommand: bool, requireEvidence: bool)

  /** One source's answer: an error, or a document (None if its text is not JSON). */
  datatype Answer = Answered(document: Option<Json>) | Silent

  /** `inline` is the configured payload and `file` the payload file, each None when not configured;
      `fileEmpty` is a file with nothing but white space; `native` is the collector, if there is one. */
  datatype Sources = Sources(
    inline: Option<Option<Json>>,
    file: Option<Answer>,
    fileEmpty: bool,
    native: Option<Answer>,
    url: Answer,
    command: Answer)

  /** The order of precedence. An empty file and a failing collector give way; any other configured
      source that comes first has the last word. */
  function Candidates(cfg: Config, sources: Sources): seq<Answer> {
    (if sources.inline.Some? then [Answered(sources.inline.value)] else [])
    + (if sources.file.Some? && (sources.file.value.Silent? || !sources.fileEmpty) then [sources.file.value] else [])
    + (if sources.native.Some? && sources.native.value.Answered? then [sources.native.value] else [])
    + (if cfg.hasURL then [sources.url] else [])
    + (if cfg.hasCommand then [sources.command] else [])
  }

  /** The order of precedence, source by source. */
  lemma Precedence(cfg: Config, sources: Sources)
    ensures var c := Candidates(cfg, sources);
            var noInline := sources.inline.None?;
            var fileGivesWay := sources.file.None? || (sources.file.value.Answered? && sources.fileEmpty);
            var nativeGivesWay := sources.native.None? || sources.native.value.Silent?;
            && (!noInline ==> c != [] && c[0] == Answered(sources.inline.value))
            && (noInline && !fileGivesWay ==> c != [] && c[0] == sources.file.value)
            && (noInline && fileGivesWay && !nativeGivesWay ==> c != [] && c[0] == sources.native.value)
            && (noInline && fileGivesWay && nativeGivesWay && cfg.hasURL ==> c != [] && c[0] == sources.url)
            && (noInline && fileGivesWay && nativeGivesWay && !cfg.hasURL && cfg.hasCommand ==>
                  c != [] && c[0] == sources.command)
            && (noInline && fileGivesWay && nativeGivesWay && !cfg.hasURL && !cfg.hasCommand <==> c == [])
  {
  }

  ghost function Checked(cfg: Config, raw: Option<Json>, nonce: string): Option<Json> {
    var r := Normalize(raw, nonce, cfg.arch);
    if r.Some? && cfg.requireEvidence && !HasEvidence(r.value) then None else r
  }

  /** normalizeNVIDIAArchName */
  function ArchName(arch: string): string {
    var name := Text.TrimSpace(Text.Upper(arch));
    if name == "" then "HOPPER" else name
  }

  /** A blank architecture is HOPPER; any other is upper-cased and trimmed. */
  lemma ArchNameMeaning(arch: string)
    ensures var name := ArchName(arch);
            if Text.TrimSpace(Text.Upper(arch)) == "" then name == "HOPPER"
            else name == Text.TrimSpace(Text.Upper(arch))
  {
  }

  method NormalizeChecked(cfg: Config, raw: Option<Json>, nonce: string) returns (r: Option<Json>)
    ensures r == Checked(cfg, raw, nonce)
  {
    r := Normalize(raw, nonce, cfg.arch);
    if r.Some? && cfg.requireEvidence {
      var ok := RequireNonEmptyEvidence(r.value);
      if !ok {
        r := None;
      }
    }
  }

  /** nvidiaPayload: the first candidate decides. However the chain succeeds, the payload has its
      three members, and real evidence if evidence is required. */
  method Payload(cfg: Config, sources: Sources, nonce: string) returns (r: Option<Json>)
    ensures var candidates := Candidates(cfg, sources);
            r == if candidates == [] then
                   if cfg.requireEvidence then None else Some(Envelope(nonce, Array([]), ArchName(cfg.arch)))
                 else if candidates[0].Silent? then None
                 else Checked(cfg, candidates[0].document, nonce)
    ensures r.Some? ==> HasMembers(r.value)
    ensures r.Some? && cfg.requireEvidence ==> HasEvidence(r.value)
  {
    ghost var candidates := Candidates(cfg, sources);
    if candidates != [] && candidates[0].Answered? {
      NormalizeComplete(candidates[0].document, nonce, cfg.arch);
    }
    if sources.inline.Some? {
      r := NormalizeChecked(cfg, sources.inline.value, nonce);
      return;
    }
    if sources.file.Some? {
      if sources.file.value.Silent? {
        return None;
      }
      if !sources.fileEmpty {
        r := NormalizeChecked(cfg, sources.file.value.document, nonce);
        return;
      }
    }
    if sources.native.Some? && sources.native.value.Answered? {
      r := NormalizeChecked(cfg, sources.native.value.document, nonce);
      return;
    }
    if cfg.hasURL {
      if sources.url.Silent? {
        return None;
      }
      r := NormalizeChecked(cfg, sources.url.document, nonce);
      return;
    }
    if cfg.hasCommand {
      if sources.command.Silent? {
        return None;
      }
      r := NormalizeChecked(cfg, sources.command.document, nonce);
      return;
    }
    if cfg.requireEvidence {
      return None;
    }
    return Some(Envelope(nonce, Array([]), ArchName(cfg.arch)));
  }

  ghost predicate HasMembers(j: Json) {
    j.Object? && "nonce" in j.members && "evidence_list" in j.members && "arch" in j.members
  }

  lemma NormalizeComplete(raw: Option<Json>, nonce: string, arch: string)
    ensures var r := Normalize(raw, nonce, arch); r.Some? ==> HasMembers(r.value)
  {
  }

  predicate NonEmptyString(payload: map<string, Json>, key: string) {
    key in payload && payload[key].String? && payload[key].text != ""
  }

  predicate CarriesEvidence(payload: map<string, Json>) {
    "evidence_list" in payload || "evidences" in payload || NonEmptyString(payload, "evidence")
  }

  /** Which payloads normalise, and to what: one that has an evidence_list keeps every member and gains
      only a missing nonce or arch; any other becomes a three-member envelope around its evidence. */
  lemma NormalizeMeaning(raw: Option<Json>, nonce: string, arch: string)
    ensures var r := Normalize(raw, nonce, arch);
            r.Some? <==> (raw.Some? && raw.value.Object? && CarriesEvidence(raw.value.members))
    ensures var r := Normalize(raw, nonce, arch);
            r.Some? ==>
              var payload, result := raw.value.members, r.value.members;
              if "evidence_list" in payload then
                && result.Keys == payload.Keys + {"nonce", "arch"}
                && (forall key :: key in payload ==> result[key] == payload[key])
                && ("nonce" !in payload ==> result["nonce"] == String(nonce))
                && ("arch" !in payload ==> result["arch"] == String(arch))
              else
                && result.Keys == {"nonce", "evidence_list", "arch"}
                && result["nonce"] == String(nonce)
                && result["evidence_list"] == (if "evidences" in payload then payload["evidences"]
                                               else Array([raw.value]))
                && result["arch"] == (if "evidences" in payload && NonEmptyString(payload, "arch") then payload["arch"]
                                      else String(arch))
  {
    assert raw.Some? && raw.value.Object? ==> Object(raw.value.members) == raw.value;
  }

  /** A normalised payload is left alone by any later normalisation, whatever nonce and architecture
      that one is given. */
  lemma NormalizeIdempotent(raw: Option<Json>, nonce: string, arch: string, nonce': string, arch': string)
    requires Normalize(raw, nonce, arch).Some?
    ensures Normalize(Some(Normalize(raw, nonce, arch).value), nonce', arch') == Normalize(raw, nonce, arch)
  {
    NormalizeComplete(raw, nonce, arch);
  }
}
