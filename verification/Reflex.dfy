/** The fast decision layer and its bounded cache (crates/igris-reflex/src/lib.rs). */
module Reflex {
  import opened Collections
  import opened Text

  datatype Intent = DeviceTransfer | DeviceStatus | MemoryQuery | ToolExec | Communication | RiskyOp | General

  datatype Risk = Low | Medium | High | Critical

  datatype ModelHint = LocalTiny | LocalSmall | FastCloud | ReasoningCloud

  datatype ReflexDecision = ReflexDecision(
    intent: Intent,
    tool: Option<string>,
    targetDevice: Option<string>,
    requiresReasoning: bool,
    risk: Risk,
    approval: bool,
    memoryScope: string,
    modelHint: ModelHint,
    confidence: real,
    cached: bool)

  function Rank(r: Risk): nat {
    match r
    case Low => 0
    case Medium => 1
    case High => 2
    case Critical => 3
  }

  // ---------------------------------------------------------- classification

  /** The phrases looked for. */
  datatype Lexicon = Lexicon(
    destructive: seq<string>,
    externalSend: seq<string>,
    targets: seq<string>,
    verbs: seq<string>,
    payloads: seq<string>,
    status: seq<string>,
    recall: seq<string>,
    communication: seq<string>,
    tools: seq<string>)

  const LEXICON := Lexicon(
    ["delete", "format", "rm -rf", "wipe", "shutdown", "pay ", "transfer money"],
    ["send email", "send sms", "send message", "post publicly", "publish"],
    ["laptop", "phone", "server"],
    ["send", "share", "push", "copy to", "move to"],
    ["build", "file", "photo", "video", "document", "doc ", "zip", "apk"],
    ["battery", "cpu", "storage", "disk space", "memory usage", "how much", "status", "health"],
    ["remember", "recall", "what did", "forgot", "note ", "my preference", "remind me", "what is my"],
    ["draft", "remind", "notify", "schedule", "calendar"],
    ["build", "test", "run", "open", "compile", "search for", "find "])

  function CountHits(t: string, words: seq<string>): nat {
    |Filter(words, w => Contains(t, w))|
  }

  predicate AnyHit(t: string, words: seq<string>) {
    exists w | w in words :: Contains(t, w)
  }

  function Calibrate(base: real, extra: int): real {
    var c := base + 0.05 * extra as real;
    if c <= 0.97 then c else 0.97
  }

  /** How often each list of phrases is hit, the first target named, the tool a local task would need. */
  datatype Signals = Signals(
    destructive: nat, externalSend: nat, target: Option<string>, verbs: nat, payload: nat,
    status: nat, recall: nat, communication: nat, tools: nat, tool: string)

  function SignalsOf(lex: Lexicon, t: string): Signals {
    Signals(
      CountHits(t, lex.destructive), CountHits(t, lex.externalSend), First(lex.targets, d => Contains(t, d)),
      CountHits(t, lex.verbs), CountHits(t, lex.payloads), CountHits(t, lex.status), CountHits(t, lex.recall),
      CountHits(t, lex.communication), CountHits(t, lex.tools),
      if Contains(t, "search for") || Contains(t, "find ") then "browser"
      else if Contains(t, "open") then "app_launcher" else "terminal")
  }

  function Route(s: Signals): ReflexDecision {
    if s.destructive + s.externalSend > 0 then
      ReflexDecision(RiskyOp, None, None, true, if s.destructive > 0 then Critical else High, true, "global",
                     ReasoningCloud, Calibrate(0.7, s.destructive + s.externalSend - 1), false)
    else if s.verbs > 0 && (s.target.Some? || s.payload > 0) then
      ReflexDecision(DeviceTransfer, Some("fastswap"), s.target, false, Low, false, "current_project",
                     LocalTiny, if s.target.Some? then Calibrate(0.85, s.verbs + s.payload) else 0.55, false)
    else if s.status > 0 then
      ReflexDecision(DeviceStatus, Some("device_query"), None, false, Low, false, "device",
                     LocalTiny, Calibrate(0.88, s.status - 1), false)
    else if s.recall > 0 then
      ReflexDecision(MemoryQuery, Some("memory_search"), None, false, Low, false, "long_term",
                     LocalTiny, Calibrate(0.78, s.recall - 1), false)
    else if s.communication > 0 then
      ReflexDecision(Communication, Some("messaging"), None, true, Medium, false, "recent",
                     FastCloud, Calibrate(0.62, s.communication - 1), false)
    else if s.tools > 0 then
      ReflexDecision(ToolExec, Some(s.tool), None, true, Medium, false, "current_project",
                     LocalSmall, Calibrate(0.6, s.tools - 1), false)
    else
      ReflexDecision(General, None, None, true, Medium, false, "recent", FastCloud, 0.5, false)
  }

  function Classify(lex: Lexicon, t: string): ReflexDecision {
    Route(SignalsOf(lex, t))
  }

  datatype EscalationPolicy = EscalationPolicy(minConfidence: real, approvalFrom: Risk) {
    function Apply(d: ReflexDecision): ReflexDecision {
      var d1 := if d.confidence < minConfidence then d.(requiresReasoning := true) else d;
      var d2 := if Rank(d1.risk) >= Rank(approvalFrom) then d1.(approval := true, requiresReasoning := true) else d1;
      if d2.risk.Critical? then d2.(modelHint := ReasoningCloud) else d2
    }
  }

  const DEFAULT_POLICY := EscalationPolicy(0.6, High)

  function Join(words: seq<string>): string {
    if words == [] then "" else if |words| == 1 then words[0] else words[0] + " " + Join(words[1..])
  }

  function Normalize(u: Unicode, text: string): string {
    Join(SplitWhitespace(u.lower(text), u.isSpace))
  }

  /** What is decided for a normalized text. */
  function DecideKey(policy: EscalationPolicy, lex: Lexicon, key: string): ReflexDecision {
    policy.Apply(Classify(lex, key))
  }

  /** The stateless entry point. */
  function Decide(u: Unicode, lex: Lexicon, text: string): ReflexDecision {
    DecideKey(DEFAULT_POLICY, lex, Normalize(u, text))
  }

  // ------------------------------------------------ what the fast path admits

  lemma CountHitsPositive(t: string, words: seq<string>)
    ensures CountHits(t, words) > 0 <==> AnyHit(t, words)
  {
    FilterEmpty(words, w => Contains(t, w));
  }

  lemma TargetFound(t: string, words: seq<string>)
    ensures First(words, d => Contains(t, d)).Some? <==> AnyHit(t, words)
  {
    FilterHead(words, d => Contains(t, d));
    FilterEmpty(words, d => Contains(t, d));
  }

  predicate Risky(lex: Lexicon, key: string) {
    AnyHit(key, lex.destructive) || AnyHit(key, lex.externalSend)
  }

  predicate Transfers(lex: Lexicon, key: string) {
    AnyHit(key, lex.verbs) && (AnyHit(key, lex.targets) || AnyHit(key, lex.payloads))
  }

  lemma SignalsMean(lex: Lexicon, key: string)
    ensures var s := SignalsOf(lex, key);
            && (s.destructive + s.externalSend > 0 <==> Risky(lex, key))
            && (s.target.Some? <==> AnyHit(key, lex.targets))
            && (s.verbs > 0 && (s.target.Some? || s.payload > 0) <==> Transfers(lex, key))
            && (s.status > 0 <==> AnyHit(key, lex.status)) && (s.recall > 0 <==> AnyHit(key, lex.recall))
  {
    CountHitsPositive(key, lex.destructive);
    CountHitsPositive(key, lex.externalSend);
    CountHitsPositive(key, lex.verbs);
    CountHitsPositive(key, lex.payloads);
    CountHitsPositive(key, lex.status);
    CountHitsPositive(key, lex.recall);
    TargetFound(key, lex.targets);
  }

  lemma RoutesFast(s: Signals)
    ensures var d := DEFAULT_POLICY.Apply(Route(s));
            var transfers := s.verbs > 0 && (s.target.Some? || s.payload > 0);
            && (!d.requiresReasoning <==>
                s.destructive + s.externalSend == 0 &&
                (if transfers then s.target.Some? else s.status > 0 || s.recall > 0))
            && (!d.requiresReasoning ==>
                && d.intent == (if transfers then DeviceTransfer
                                else if s.status > 0 then DeviceStatus else MemoryQuery)
                && !d.approval && d.confidence >= 0.6 && (d.targetDevice.Some? <==> d.intent.DeviceTransfer?))
            && (s.destructive + s.externalSend > 0 ==>
                && d.intent.RiskyOp? && d.approval && d.modelHint.ReasoningCloud?
                && d.risk == (if s.destructive > 0 then Critical else High))
  {
  }

  /** Exactly which texts are answered without reasoning, and as what. */
  lemma FastPathIff(u: Unicode, lex: Lexicon, text: string)
    ensures var d, key := Decide(u, lex, text), Normalize(u, text);
            && (!d.requiresReasoning <==>
                !Risky(lex, key) &&
                (if Transfers(lex, key) then AnyHit(key, lex.targets)
                 else AnyHit(key, lex.status) || AnyHit(key, lex.recall)))
            && (!d.requiresReasoning ==>
                && d.intent == (if Transfers(lex, key) then DeviceTransfer
                                else if AnyHit(key, lex.status) then DeviceStatus else MemoryQuery)
                && !d.approval && d.confidence >= 0.6 && (d.targetDevice.Some? <==> d.intent.DeviceTransfer?))
  {
    SignalsMean(lex, Normalize(u, text));
    RoutesFast(SignalsOf(lex, Normalize(u, text)));
  }

  /** Nothing destructive or sent outside that the normalized text shows skips reasoning or approval. */
  lemma RiskyNeverFast(u: Unicode, lex: Lexicon, text: string)
    requires Risky(lex, Normalize(u, text))
    ensures var d := Decide(u, lex, text);
            && d.requiresReasoning && d.approval && d.intent.RiskyOp? && d.modelHint.ReasoningCloud?
            && d.risk == (if AnyHit(Normalize(u, text), lex.destructive) then Critical else High)
  {
    CountHitsPositive(Normalize(u, text), lex.destructive);
    SignalsMean(lex, Normalize(u, text));
    RoutesFast(SignalsOf(lex, Normalize(u, text)));
  }

  /** Whatever the normalized text contains of the listed destructive or external phrases needs approval. */
  lemma NamedRiskNeedsApproval(u: Unicode, text: string, phrase: string)
    requires phrase in LEXICON.destructive || phrase in LEXICON.externalSend
    requires Contains(Normalize(u, text), phrase)
    ensures Decide(u, LEXICON, text).approval && Decide(u, LEXICON, text).requiresReasoning
  {
    RiskyNeverFast(u, LEXICON, text);
  }
}
