/** The whole decision table of the fast layer, read off the phrases in the text. */
module Decisions {
  import opened Collections
  import opened Text
  import opened Reflex

  ghost predicate Status(lex: Lexicon, key: string) {
    !Risky(lex, key) && !Transfers(lex, key) && AnyHit(key, lex.status)
  }

  ghost predicate Recall(lex: Lexicon, key: string) {
    !Risky(lex, key) && !Transfers(lex, key) && !AnyHit(key, lex.status) && AnyHit(key, lex.recall)
  }

  /** None of the intents that can be answered at once. */
  ghost predicate Slow(lex: Lexicon, key: string) {
    !Risky(lex, key) && !Transfers(lex, key) && !AnyHit(key, lex.status) && !AnyHit(key, lex.recall)
  }

  /** How many phrases of the list the text contains. */
  function Hits(key: string, phrases: seq<string>): nat {
    |Positions(phrases, p => Contains(key, p), 0)|
  }

  lemma HitsAreCounted(key: string, phrases: seq<string>)
    ensures CountHits(key, phrases) == Hits(key, phrases)
    ensures Hits(key, phrases) > 0 <==> AnyHit(key, phrases)
  {
    FilterCounts(phrases, p => Contains(key, p), 0);
    assert phrases[0..] == phrases;
    CountHitsPositive(key, phrases);
  }

  function AtMost97(c: real): real {
    if c <= 0.97 then c else 0.97
  }

  // ------------------------------------------------------------- one by one

  lemma RiskyDecision(u: Unicode, lex: Lexicon, text: string)
    requires Risky(lex, Normalize(u, text))
    ensures var d, key := Decide(u, lex, text), Normalize(u, text);
            && d.intent == RiskyOp && d.tool == None && d.targetDevice == None && d.requiresReasoning && d.approval
            && d.risk == (if AnyHit(key, lex.destructive) then Critical else High)
            && d.memoryScope == "global" && d.modelHint == ReasoningCloud && !d.cached
            && d.confidence ==
               AtMost97(0.7 + 0.05 * (Hits(key, lex.destructive) + Hits(key, lex.externalSend) - 1) as real)
  {
    var key := Normalize(u, text);
    HitsAreCounted(key, lex.destructive);
    HitsAreCounted(key, lex.externalSend);
  }

  /** The transfer goes to the first listed device that the text names. */
  lemma TransferDecision(u: Unicode, lex: Lexicon, text: string)
    requires !Risky(lex, Normalize(u, text)) && Transfers(lex, Normalize(u, text))
    ensures var d, key := Decide(u, lex, text), Normalize(u, text);
            && d.intent == DeviceTransfer && d.tool == Some("fastswap") && !d.approval && d.risk == Low
            && d.memoryScope == "current_project" && d.modelHint == LocalTiny && !d.cached
            && (d.targetDevice == None <==> !AnyHit(key, lex.targets))
            && (d.targetDevice.Some? ==> IsFirst(lex.targets, p => Contains(key, p), d.targetDevice.value))
            && (d.requiresReasoning <==> d.targetDevice == None)
            && d.confidence == if d.targetDevice == None then 0.55
                               else AtMost97(0.85 + 0.05 * (Hits(key, lex.verbs) + Hits(key, lex.payloads)) as real)
  {
    var key := Normalize(u, text);
    SignalsMean(lex, key);
    HitsAreCounted(key, lex.verbs);
    HitsAreCounted(key, lex.payloads);
    FirstIsFirst(lex.targets, p => Contains(key, p));
    assert First(lex.targets, p => Contains(key, p)) == SignalsOf(lex, key).target by {
      SameSelection(lex.targets, p => Contains(key, p), d => Contains(key, d));
    }
  }

  lemma StatusDecision(u: Unicode, lex: Lexicon, text: string)
    requires Status(lex, Normalize(u, text))
    ensures var d, key := Decide(u, lex, text), Normalize(u, text);
            && d.intent == DeviceStatus && d.tool == Some("device_query") && d.targetDevice == None
            && !d.requiresReasoning && !d.approval && d.risk == Low
            && d.memoryScope == "device" && d.modelHint == LocalTiny && !d.cached
            && d.confidence == AtMost97(0.88 + 0.05 * (Hits(key, lex.status) - 1) as real)
  {
    SignalsMean(lex, Normalize(u, text));
    HitsAreCounted(Normalize(u, text), lex.status);
  }

  lemma RecallDecision(u: Unicode, lex: Lexicon, text: string)
    requires Recall(lex, Normalize(u, text))
    ensures var d, key := Decide(u, lex, text), Normalize(u, text);
            && d.intent == MemoryQuery && d.tool == Some("memory_search") && d.targetDevice == None
            && !d.requiresReasoning && !d.approval && d.risk == Low
            && d.memoryScope == "long_term" && d.modelHint == LocalTiny && !d.cached
            && d.confidence == AtMost97(0.78 + 0.05 * (Hits(key, lex.recall) - 1) as real)
  {
    SignalsMean(lex, Normalize(u, text));
    HitsAreCounted(Normalize(u, text), lex.recall);
  }

  lemma CommunicationDecision(u: Unicode, lex: Lexicon, text: string)
    requires Slow(lex, Normalize(u, text)) && AnyHit(Normalize(u, text), lex.communication)
    ensures var d, key := Decide(u, lex, text), Normalize(u, text);
            && d.intent == Communication && d.tool == Some("messaging") && d.targetDevice == None
            && d.requiresReasoning && !d.approval && d.risk == Medium
            && d.memoryScope == "recent" && d.modelHint == FastCloud && !d.cached
            && d.confidence == AtMost97(0.62 + 0.05 * (Hits(key, lex.communication) - 1) as real)
  {
    SignalsMean(lex, Normalize(u, text));
    HitsAreCounted(Normalize(u, text), lex.communication);
  }

  lemma ToolDecision(u: Unicode, lex: Lexicon, text: string)
    requires Slow(lex, Normalize(u, text)) && !AnyHit(Normalize(u, text), lex.communication)
    requires AnyHit(Normalize(u, text), lex.tools)
    ensures var d, key := Decide(u, lex, text), Normalize(u, text);
            && d.intent == ToolExec && d.targetDevice == None
            && (d.tool == Some("browser") <==> Contains(key, "search for") || Contains(key, "find "))
            && (d.tool == Some("app_launcher") <==>
                !Contains(key, "search for") && !Contains(key, "find ") && Contains(key, "open"))
            && (d.tool == Some("terminal") <==>
                !Contains(key, "search for") && !Contains(key, "find ") && !Contains(key, "open"))
            && d.requiresReasoning && !d.approval && d.risk == Medium
            && d.memoryScope == "current_project" && d.modelHint == LocalSmall && !d.cached
            && d.confidence == AtMost97(0.6 + 0.05 * (Hits(key, lex.tools) - 1) as real)
  {
    var key := Normalize(u, text);
    SignalsMean(lex, key);
    HitsAreCounted(key, lex.tools);
    HitsAreCounted(key, lex.communication);
    assert "browser" != "app_launcher" && |"terminal"| == 8;
  }

  lemma GeneralDecision(u: Unicode, lex: Lexicon, text: string)
    requires Slow(lex, Normalize(u, text)) && !AnyHit(Normalize(u, text), lex.communication)
    requires !AnyHit(Normalize(u, text), lex.tools)
    ensures var d := Decide(u, lex, text);
            && d.intent == General && d.tool == None && d.targetDevice == None
            && d.requiresReasoning && !d.approval && d.risk == Medium
            && d.memoryScope == "recent" && d.modelHint == FastCloud && d.confidence == 0.5 && !d.cached
  {
    var key := Normalize(u, text);
    SignalsMean(lex, key);
    HitsAreCounted(key, lex.tools);
    HitsAreCounted(key, lex.communication);
  }

  // --------------------------------------------------------------- together

  /** Each intent is decided for exactly the texts its phrases say. */
  lemma IntentIff(u: Unicode, lex: Lexicon, text: string)
    ensures var intent, key := Decide(u, lex, text).intent, Normalize(u, text);
            && (intent == RiskyOp <==> Risky(lex, key))
            && (intent == DeviceTransfer <==> !Risky(lex, key) && Transfers(lex, key))
            && (intent == DeviceStatus <==> Status(lex, key))
            && (intent == MemoryQuery <==> Recall(lex, key))
            && (intent == Communication <==> Slow(lex, key) && AnyHit(key, lex.communication))
            && (intent == ToolExec <==>
                Slow(lex, key) && !AnyHit(key, lex.communication) && AnyHit(key, lex.tools))
            && (intent == General <==>
                Slow(lex, key) && !AnyHit(key, lex.communication) && !AnyHit(key, lex.tools))
  {
    var key := Normalize(u, text);
    if Risky(lex, key) {
      RiskyDecision(u, lex, text);
    } else if Transfers(lex, key) {
      TransferDecision(u, lex, text);
    } else if AnyHit(key, lex.status) {
      StatusDecision(u, lex, text);
    } else if AnyHit(key, lex.recall) {
      RecallDecision(u, lex, text);
    } else {
      SlowIntent(u, lex, text);
    }
  }

  lemma SlowIntent(u: Unicode, lex: Lexicon, text: string)
    requires Slow(lex, Normalize(u, text))
    ensures Decide(u, lex, text).intent ==
            if AnyHit(Normalize(u, text), lex.communication) then Communication
            else if AnyHit(Normalize(u, text), lex.tools) then ToolExec else General
  {
    if AnyHit(Normalize(u, text), lex.communication) {
      CommunicationDecision(u, lex, text);
    } else if AnyHit(Normalize(u, text), lex.tools) {
      ToolDecision(u, lex, text);
    } else {
      GeneralDecision(u, lex, text);
    }
  }

  // ------------------------------------------------- the program's own lists

  lemma AnyHitFew(key: string, phrases: seq<string>)
    ensures AnyHit(key, phrases) <==> exists k :: 0 <= k < |phrases| && Contains(key, phrases[k])
  {
    if AnyHit(key, phrases) {
      var w :| w in phrases && Contains(key, w);
      var k :| 0 <= k < |phrases| && phrases[k] == w;
    }
  }

  lemma AnyOfThree(key: string, p: seq<string>)
    requires |p| == 3
    ensures AnyHit(key, p) <==> Contains(key, p[0]) || Contains(key, p[1]) || Contains(key, p[2])
  {
    AnyHitFew(key, p);
  }

  lemma AnyHitSplit(key: string, p: seq<string>, n: nat)
    requires n <= |p|
    ensures AnyHit(key, p) <==> AnyHit(key, p[..n]) || AnyHit(key, p[n..])
  {
    assert p == p[..n] + p[n..];
  }

  lemma AnyOfFive(key: string, p: seq<string>)
    requires |p| == 5
    ensures AnyHit(key, p) <==>
              || Contains(key, p[0]) || Contains(key, p[1]) || Contains(key, p[2]) || Contains(key, p[3])
              || Contains(key, p[4])
  {
    AnyHitFew(key, p);
  }

  lemma AnyOfSeven(key: string, p: seq<string>)
    requires |p| == 7
    ensures AnyHit(key, p) <==>
              || Contains(key, p[0]) || Contains(key, p[1]) || Contains(key, p[2]) || Contains(key, p[3])
              || Contains(key, p[4]) || Contains(key, p[5]) || Contains(key, p[6])
  {
    AnyHitSplit(key, p, 5);
    AnyOfFive(key, p[..5]);
    AnyHitFew(key, p[5..]);
  }

  lemma AnyOfEight(key: string, p: seq<string>)
    requires |p| == 8
    ensures AnyHit(key, p) <==>
              || Contains(key, p[0]) || Contains(key, p[1]) || Contains(key, p[2]) || Contains(key, p[3])
              || Contains(key, p[4]) || Contains(key, p[5]) || Contains(key, p[6]) || Contains(key, p[7])
  {
    AnyHitSplit(key, p, 5);
    AnyOfFive(key, p[..5]);
    AnyOfThree(key, p[5..]);
  }

  /** What asks for approval because it destroys. */
  lemma DestructiveMeans(key: string)
    ensures AnyHit(key, LEXICON.destructive) <==>
              || Contains(key, "delete") || Contains(key, "format") || Contains(key, "rm -rf")
              || Contains(key, "wipe") || Contains(key, "shutdown") || Contains(key, "pay ")
              || Contains(key, "transfer money")
  {
    AnyOfSeven(key, LEXICON.destructive);
  }

  /** What asks for approval because it leaves the devices. */
  lemma ExternalSendMeans(key: string)
    ensures AnyHit(key, LEXICON.externalSend) <==>
              || Contains(key, "send email") || Contains(key, "send sms") || Contains(key, "send message")
              || Contains(key, "post publicly") || Contains(key, "publish")
  {
    AnyOfFive(key, LEXICON.externalSend);
  }

  /** The devices. */
  lemma TargetsMean(key: string)
    ensures AnyHit(key, LEXICON.targets) <==>
              || Contains(key, "laptop") || Contains(key, "phone") || Contains(key, "server")
  {
    AnyOfThree(key, LEXICON.targets);
  }

  /** What moves something. */
  lemma VerbsMean(key: string)
    ensures AnyHit(key, LEXICON.verbs) <==>
              || Contains(key, "send") || Contains(key, "share") || Contains(key, "push")
              || Contains(key, "copy to") || Contains(key, "move to")
  {
    AnyOfFive(key, LEXICON.verbs);
  }

  /** What can be moved. */
  lemma PayloadsMean(key: string)
    ensures AnyHit(key, LEXICON.payloads) <==>
              || Contains(key, "build") || Contains(key, "file") || Contains(key, "photo")
              || Contains(key, "video") || Contains(key, "document") || Contains(key, "doc ")
              || Contains(key, "zip") || Contains(key, "apk")
  {
    AnyOfEight(key, LEXICON.payloads);
  }

  /** What asks about the device. */
  lemma StatusMeans(key: string)
    ensures AnyHit(key, LEXICON.status) <==>
              || Contains(key, "battery") || Contains(key, "cpu") || Contains(key, "storage")
              || Contains(key, "disk space") || Contains(key, "memory usage") || Contains(key, "how much")
              || Contains(key, "status") || Contains(key, "health")
  {
    AnyOfEight(key, LEXICON.status);
  }

  /** What asks about the past. */
  lemma RecallMeans(key: string)
    ensures AnyHit(key, LEXICON.recall) <==>
              || Contains(key, "remember") || Contains(key, "recall") || Contains(key, "what did")
              || Contains(key, "forgot") || Contains(key, "note ") || Contains(key, "my preference")
              || Contains(key, "remind me") || Contains(key, "what is my")
  {
    AnyOfEight(key, LEXICON.recall);
  }

  /** What asks for a message. */
  lemma CommunicationMeans(key: string)
    ensures AnyHit(key, LEXICON.communication) <==>
              || Contains(key, "draft") || Contains(key, "remind") || Contains(key, "notify")
              || Contains(key, "schedule") || Contains(key, "calendar")
  {
    AnyOfFive(key, LEXICON.communication);
  }

  /** What asks for a local task. */
  lemma ToolsMean(key: string)
    ensures AnyHit(key, LEXICON.tools) <==>
              || Contains(key, "build") || Contains(key, "test") || Contains(key, "run")
              || Contains(key, "open") || Contains(key, "compile") || Contains(key, "search for")
              || Contains(key, "find ")
  {
    AnyOfSeven(key, LEXICON.tools);
  }

  /** The device of a transfer: the laptop before the phone before the server. */
  lemma TransferTarget(u: Unicode, text: string)
    requires !Risky(LEXICON, Normalize(u, text)) && Transfers(LEXICON, Normalize(u, text))
    ensures Decide(u, LEXICON, text).targetDevice == FirstNamed(Normalize(u, text), "laptop", "phone", "server")
  {
    TargetOfThree(u, LEXICON, text, "laptop", "phone", "server");
  }

  lemma TargetOfThree(u: Unicode, lex: Lexicon, text: string, a: string, b: string, c: string)
    requires !Risky(lex, Normalize(u, text)) && Transfers(lex, Normalize(u, text)) && lex.targets == [a, b, c]
    ensures Decide(u, lex, text).targetDevice == FirstNamed(Normalize(u, text), a, b, c)
  {
    TransferDecision(u, lex, text);
    FirstOfThree(Normalize(u, text), lex.targets, Decide(u, lex, text).targetDevice);
  }

  /** The first of three that the text names. */
  function FirstNamed(key: string, a: string, b: string, c: string): Option<string> {
    if Contains(key, a) then Some(a)
    else if Contains(key, b) then Some(b)
    else if Contains(key, c) then Some(c)
    else None
  }

  lemma FirstOfThree(key: string, targets: seq<string>, target: Option<string>)
    requires |targets| == 3 && (target == None <==> !AnyHit(key, targets))
    requires target.Some? ==> IsFirst(targets, p => Contains(key, p), target.value)
    ensures target == FirstNamed(key, targets[0], targets[1], targets[2])
  {
    AnyHitFew(key, targets);
    if target.Some? {
      var i :| 0 <= i < 3 && targets[i] == target.value && Contains(key, target.value)
              && forall j :: 0 <= j < i ==> !Contains(key, targets[j]);
    }
  }

  // -------------------------------------------------------------- escalation

  /** The risks from `from` on. */
  function RisksFrom(from: Risk): set<Risk> {
    match from
    case Low => {Low, Medium, High, Critical}
    case Medium => {Medium, High, Critical}
    case High => {High, Critical}
    case Critical => {Critical}
  }

  /** Whatever the policy, it only ever adds reasoning and approval, and says exactly when. */
  lemma PolicyEscalates(policy: EscalationPolicy, d: ReflexDecision)
    ensures var e := policy.Apply(d);
            && (e.approval <==> d.approval || d.risk in RisksFrom(policy.approvalFrom))
            && (e.requiresReasoning <==>
                d.requiresReasoning || d.confidence < policy.minConfidence || d.risk in RisksFrom(policy.approvalFrom))
            && e.modelHint == (if d.risk == Critical then ReasoningCloud else d.modelHint)
            && e.(approval := d.approval, requiresReasoning := d.requiresReasoning, modelHint := d.modelHint) == d
  {
  }
}
