/**
  The agent scope rule: a tolerant reader of stored string arrays, the two grant
  decisions that use it, and the validation that guards what is stored.
 */
module AgentScope {
  import opened Prelude
  import opened Strings

  const KNOWLEDGE_TIERS: seq<string> := ["T0", "T1", "T2", "T3"]

  const TOOLS: seq<string> :=
    ["text", "streaming", "embedding", "stt", "tts", "realtime_voice", "model_discovery", "connection_test",
     "structured_output", "tool_calling", "reasoning", "vision", "context_caching", "batch_processing"]

  const CHANNELS: seq<string> := ["desktop", "voice", "whatsapp", "cron"]

  datatype ScopeDecision = Granted | Denied(reason: string)

  datatype Agent = Agent(name: string, tools: string, knowledgeTiers: string)

  // ----- reading a stored array -----

  predicate IsQuoted(p: string) { |p| >= 2 && p[0] == '"' && p[|p| - 1] == '"' }

  /** What the reader makes of a stored string: empty when it is malformed. */
  function Parsed(raw: string): seq<string> {
    var t := Trim(raw);
    if t == "" || t[0] != '[' || t[|t| - 1] != ']' then [] else
    var inner := t[1..|t| - 1];
    if Blank(inner) then [] else
    var parts := SplitWhere(inner, Is(','));
    if AllQuoted(parts) then Contents(parts) else []
  }

  predicate AllQuoted(parts: seq<string>) {
    forall i :: 0 <= i < |parts| ==> IsQuoted(Trim(parts[i]))
  }

  function Contents(parts: seq<string>): (out: seq<string>)
    requires AllQuoted(parts)
    ensures |out| == |parts|
  {
    seq(|parts|, i requires 0 <= i < |parts| => Unquoted(Trim(parts[i])))
  }

  function Unquoted(p: string): string
    requires IsQuoted(p)
  {
    p[1..|p| - 1]
  }

  method FromJsonArray(raw: string) returns (out: seq<string>)
    ensures out == Parsed(raw)
  {
    hide SplitWhere, Trim, Blank;
    var t := Trim(raw);
    if t == "" || t[0] != '[' || t[|t| - 1] != ']' {
      return [];
    }
    var inner := t[1..|t| - 1];
    if Blank(inner) {
      return [];
    }
    out := [];
    var parts := SplitWhere(inner, Is(','));
    for i := 0 to |parts|
      invariant AllQuoted(parts[..i]) && out == Contents(parts[..i])
    {
      var p := Trim(parts[i]);
      if IsQuoted(p) {
        out := out + [p[1..|p| - 1]];
      } else {
        return [];
      }
    }
    assert parts[..|parts|] == parts;
  }

  // ----- what it reads: an independent description -----

  function Commas(parts: seq<string>): string { Join(parts, ',') }

  function Quoted(x: string): string { "\"" + x + "\"" }

  /** The parts, white space around them aside, are the quoted texts, and hold no comma. */
  ghost predicate Quote(parts: seq<string>, xs: seq<string>) {
    && |parts| == |xs|
    && forall i :: 0 <= i < |parts| ==> ',' !in parts[i] && Trim(parts[i]) == Quoted(xs[i])
  }

  /** `raw` is the array `xs` written out, with white space anywhere between its symbols. */
  ghost predicate Writes(raw: string, xs: seq<string>) {
    exists parts :: Quote(parts, xs) && Trim(raw) == "[" + Commas(parts) + "]"
  }

  lemma TrimKeeps(s: string, c: char)
    requires c in s && !IsSpace(c)
    ensures !Blank(s)
  {
    BlankIff(s);
  }

  /** The reader returns a list with members exactly for the strings that write that list. */
  lemma ReadsExactly(raw: string, xs: seq<string>)
    requires xs != []
    ensures Parsed(raw) == xs <==> Writes(raw, xs)
  {
    if Parsed(raw) == xs { ReadsOnlyWritten(raw, xs); }
    if Writes(raw, xs) { ReadsWritten(raw, xs); }
  }

  lemma ReadsOnlyWritten(raw: string, xs: seq<string>)
    requires xs != [] && Parsed(raw) == xs
    ensures Writes(raw, xs)
  {
    hide SplitWhere, Trim, Blank;
    var t := Trim(raw);
    var inner := t[1..|t| - 1];
    var parts := SplitWhere(inner, Is(','));
    JoinSplit(inner, ',');
    assert t == "[" + inner + "]";
    assert Quote(parts, xs);
  }

  lemma ReadsWritten(raw: string, xs: seq<string>)
    requires xs != [] && Writes(raw, xs)
    ensures Parsed(raw) == xs
  {
    hide SplitWhere, Trim, Blank;
    var parts :| Quote(parts, xs) && Trim(raw) == "[" + Commas(parts) + "]";
    var t, inner := Trim(raw), Commas(parts);
    assert t[1..|t| - 1] == inner;
    SplitJoin(parts, ',');
    assert '"' in inner by {
      TrimWithin(parts[0], '"');
    }
    TrimKeeps(inner, '"');
    assert Contents(parts) == xs;
  }

  lemma WritesNoComma(raw: string, xs: seq<string>)
    requires Writes(raw, xs)
    ensures forall x :: x in xs ==> ',' !in x
  {
    hide Trim;
    var parts :| Quote(parts, xs) && Trim(raw) == "[" + Commas(parts) + "]";
    forall i | 0 <= i < |xs| && ',' in xs[i] ensures false {
      assert ',' in Trim(parts[i]);
      TrimWithin(parts[i], ',');
    }
  }

  // ----- writing and reading back -----

  const HEX := "0123456789abcdef"

  /** The characters that JSON writes as an escape: the quote, the backslash and the control characters. */
  predicate NeedsEscape(c: char) { c == '"' || c == '\\' || c < ' ' }

  /** One character of a JSON string. */
  function Escape(c: char): (e: string)
    ensures if NeedsEscape(c) then |e| >= 2 && ',' !in e else e == [c]
  {
    if c == '"' then "\\\""
    else if c == '\\' then "\\\\"
    else if c == '\U{0008}' then "\\b"
    else if c == '\t' then "\\t"
    else if c == '\n' then "\\n"
    else if c == '\U{000C}' then "\\f"
    else if c == '\r' then "\\r"
    else if c < ' ' then "\\u00" + [HEX[c as int / 16], HEX[c as int % 16]]
    else [c]
  }

  function Escaped(x: string): string {
    if x == "" then "" else Escape(x[0]) + Escaped(x[1..])
  }

  lemma {:induction false} EscapedIff(x: string)
    ensures |Escaped(x)| >= |x|
    ensures Escaped(x) == x <==> forall c :: c in x ==> !NeedsEscape(c)
    ensures ',' in Escaped(x) <==> ',' in x
  {
    if x == "" {
    } else {
      EscapedIff(x[1..]);
      assert x == [x[0]] + x[1..];
      if !NeedsEscape(x[0]) {
        assert Escaped(x)[1..] == Escaped(x[1..]);
      } else {
        assert |Escaped(x)| > |x|;
      }
    }
  }

  /** What a JSON reader makes of the inside of a string, by the escapes that JSON has. */
  function Unescaped(s: string): Option<string>
    decreases |s|
  {
    if s == "" then Some("")
    else if s[0] == '"' || s[0] < ' ' then None
    else if s[0] != '\\' then Then([s[0]], Unescaped(s[1..]))
    else if |s| < 2 then None
    else if s[1] in ['"', '\\', '/'] then Then([s[1]], Unescaped(s[2..]))
    else if s[1] == 'b' then Then(['\U{0008}'], Unescaped(s[2..]))
    else if s[1] == 'f' then Then(['\U{000C}'], Unescaped(s[2..]))
    else if s[1] == 'n' then Then(['\n'], Unescaped(s[2..]))
    else if s[1] == 'r' then Then(['\r'], Unescaped(s[2..]))
    else if s[1] == 't' then Then(['\t'], Unescaped(s[2..]))
    else if s[1] == 'u' && |s| >= 6 && s[2..4] == "00" && HexValue(s[4]) < 8 && HexValue(s[5]) < 16
      then Then([(16 * HexValue(s[4]) + HexValue(s[5])) as char], Unescaped(s[6..]))
    else None
  }

  function Then(first: string, rest: Option<string>): Option<string> {
    if rest.Some? then Some(first + rest.value) else None
  }

  /** The value of a hexadecimal digit, or 16. */
  function HexValue(c: char): nat {
    if '0' <= c <= '9' then c as int - '0' as int
    else if 'a' <= c <= 'f' then c as int - 'a' as int + 10
    else if 'A' <= c <= 'F' then c as int - 'A' as int + 10
    else 16
  }

  lemma EscapeReads(c: char, rest: string)
    ensures Unescaped(Escape(c) + rest) == Then([c], Unescaped(rest))
  {
    var e := Escape(c);
    var s := e + rest;
    assert s[|e|..] == rest;
    if NeedsEscape(c) {
      assert s[0] == '\\' && s[1] == e[1];
      if |e| == 6 {
        var n := c as int;
        HexDigit(n / 16);
        HexDigit(n % 16);
        assert s[2..4] == "00" && s[4] == HEX[n / 16] && s[5] == HEX[n % 16];
        assert 16 * (n / 16) + n % 16 == n;
      }
    }
  }

  lemma HexDigit(n: nat)
    requires n < 16
    ensures HexValue(HEX[n]) == n
  {
  }

  /** A JSON reader gets back every text. */
  lemma {:induction false} EscapedReads(x: string)
    ensures Unescaped(Escaped(x)) == Some(x)
  {
    hide Escape, Unescaped;
    if x == "" {
      assert Unescaped("") == Some("") by { NothingReads(); }
    } else {
      EscapedReads(x[1..]);
      EscapeReads(x[0], Escaped(x[1..]));
      assert x == [x[0]] + x[1..];
    }
  }

  lemma NothingReads()
    ensures Unescaped("") == Some("")
  {
  }

  function EscapeAll(xs: seq<string>): (es: seq<string>)
    ensures |es| == |xs|
  {
    seq(|xs|, i requires 0 <= i < |xs| => Escaped(xs[i]))
  }

  function QuoteAll(xs: seq<string>): (parts: seq<string>)
    ensures |parts| == |xs|
  {
    seq(|xs|, i requires 0 <= i < |xs| => Quoted(xs[i]))
  }

  /** The JSON array that the agents table stores. */
  function Written(xs: seq<string>): string { "[" + Commas(QuoteAll(EscapeAll(xs))) + "]" }

  lemma TrimTight(s: string)
    requires s != "" && !IsSpace(s[0]) && !IsSpace(s[|s| - 1])
    ensures Trim(s) == s
  {
    TrimEndShape(s);
  }

  /** The reader takes escapes for text: of a list without commas it returns the escaped texts. */
  lemma ReadsEscapes(xs: seq<string>)
    requires forall x :: x in xs ==> ',' !in x
    ensures Parsed(Written(xs)) == EscapeAll(xs)
  {
    hide Trim, Escaped, Blank;
    var es := EscapeAll(xs);
    var parts := QuoteAll(es);
    TrimTight(Written(xs));
    if xs == [] {
      assert Written(xs)[1..|Written(xs)| - 1] == "";
      BlankIff("");
    } else {
      forall i | 0 <= i < |parts| ensures ',' !in parts[i] && Trim(parts[i]) == Quoted(es[i]) {
        assert xs[i] in xs;
        EscapedIff(xs[i]);
        TrimTight(parts[i]);
      }
      assert Quote(parts, es);
      ReadsExactly(Written(xs), es);
    }
  }

  /** No comma, and nothing that JSON escapes. */
  predicate Plain(x: string) { forall c :: c in x ==> c != ',' && !NeedsEscape(c) }

  /** Reading undoes writing exactly for the lists of plain texts. */
  lemma RoundTripIff(xs: seq<string>)
    ensures Parsed(Written(xs)) == xs <==> forall x :: x in xs ==> Plain(x)
  {
    hide Parsed, Written, Escaped, Writes;
    if Parsed(Written(xs)) == xs && xs != [] {
      ReadsExactly(Written(xs), xs);
      WritesNoComma(Written(xs), xs);
    }
    if forall x :: x in xs ==> ',' !in x {
      ReadsEscapes(xs);
      EscapeAllIff(xs);
    }
  }

  lemma EscapeAllIff(xs: seq<string>)
    ensures EscapeAll(xs) == xs <==> forall x :: x in xs ==> forall c :: c in x ==> !NeedsEscape(c)
  {
    hide Escaped, NeedsEscape;
    forall i | 0 <= i < |xs| ensures EscapeAll(xs)[i] == xs[i] <==> forall c :: c in xs[i] ==> !NeedsEscape(c) {
      EscapedIff(xs[i]);
    }
    if EscapeAll(xs) == xs {
      forall x | x in xs ensures forall c :: c in x ==> !NeedsEscape(c) {
        var i :| 0 <= i < |xs| && xs[i] == x;
        assert EscapeAll(xs)[i] == xs[i];
      }
    }
    if forall x :: x in xs ==> forall c :: c in x ==> !NeedsEscape(c) {
      forall i | 0 <= i < |xs| ensures EscapeAll(xs)[i] == xs[i] { assert xs[i] in xs; }
    }
  }

  // ----- grants -----

  function ScopeGrantsTool(agent: Agent, tool: string): ScopeDecision {
    if tool !in TOOLS then Denied("'" + tool + "' is not a known capability")
    else if tool in Parsed(agent.tools) then Granted
    else Denied("agent '" + agent.name + "' is not granted the '" + tool + "' capability")
  }

  function ScopeGrantsTier(agent: Agent, tier: string): ScopeDecision {
    if tier !in KNOWLEDGE_TIERS then Denied("'" + tier + "' is not a known knowledge tier")
    else if tier == "T3" then Denied("T3 is never-checked and cannot be granted to any agent")
    else if tier in Parsed(agent.knowledgeTiers) then Granted
    else Denied("agent '" + agent.name + "' is not granted knowledge tier " + tier)
  }

  /**
    A grant needs a stored array that is well-formed and lists what is asked for;
    any other stored string grants nothing.
   */
  lemma GrantsFailClosed(agent: Agent, tool: string, tier: string)
    ensures ScopeGrantsTool(agent, tool).Granted?
       <==> tool in TOOLS && exists xs :: tool in xs && Writes(agent.tools, xs)
    ensures ScopeGrantsTier(agent, tier).Granted?
       <==> tier in ["T0", "T1", "T2"] && exists xs :: tier in xs && Writes(agent.knowledgeTiers, xs)
  {
    hide Parsed, Writes;
    Listed(agent.tools, tool);
    Listed(agent.knowledgeTiers, tier);
  }

  lemma Listed(raw: string, x: string)
    ensures x in Parsed(raw) <==> exists xs :: x in xs && Writes(raw, xs)
  {
    hide Parsed, Writes;
    if x in Parsed(raw) { ReadsExactly(raw, Parsed(raw)); }
    forall xs | x in xs && Writes(raw, xs) ensures x in Parsed(raw) {
      ReadsExactly(raw, xs);
    }
  }

  /** What a denial says. */
  lemma DenialsSay(agent: Agent, tool: string, tier: string)
    ensures tool !in TOOLS ==> ScopeGrantsTool(agent, tool) == Denied("'" + tool + "' is not a known capability")
    ensures tool in TOOLS && !(exists xs :: tool in xs && Writes(agent.tools, xs)) ==>
              ScopeGrantsTool(agent, tool)
              == Denied("agent '" + agent.name + "' is not granted the '" + tool + "' capability")
    ensures tier == "T3" ==>
              ScopeGrantsTier(agent, tier) == Denied("T3 is never-checked and cannot be granted to any agent")
    ensures tier !in KNOWLEDGE_TIERS ==>
              ScopeGrantsTier(agent, tier) == Denied("'" + tier + "' is not a known knowledge tier")
    ensures tier in KNOWLEDGE_TIERS && tier != "T3"
            && !(exists xs :: tier in xs && Writes(agent.knowledgeTiers, xs)) ==>
              ScopeGrantsTier(agent, tier)
              == Denied("agent '" + agent.name + "' is not granted knowledge tier " + tier)
  {
    hide Parsed, Writes;
    Listed(agent.tools, tool);
    Listed(agent.knowledgeTiers, tier);
  }

  // ----- validation -----

  function TierFault(t: string): Option<string> {
    if t !in KNOWLEDGE_TIERS then Some("unknown knowledge tier '" + t + "'")
    else if t == "T3" then Some("T3 is never-checked and cannot be granted")
    else None
  }

  function ToolFault(t: string): Option<string> {
    if t !in TOOLS then Some("unknown capability '" + t + "'") else None
  }

  function ChannelFault(c: string): Option<string> {
    if c !in CHANNELS then Some("unknown channel '" + c + "'") else None
  }

  /** The fault of the first element that has one. */
  function FirstFault(xs: seq<string>, fault: string -> Option<string>): (r: Option<string>)
    ensures r.None? <==> forall x :: x in xs ==> fault(x).None?
  {
    if xs == [] then None
    else if fault(xs[0]).Some? then fault(xs[0])
    else FirstFault(xs[1..], fault)
  }

  function OrElse(a: Option<string>, b: Option<string>): Option<string> { if a.Some? then a else b }

  /** Tiers before tools before channels, and the first fault of the earliest list with one. */
  function ScopeFault(tiers: seq<string>, tools: seq<string>, channels: seq<string>): Option<string> {
    OrElse(FirstFault(tiers, TierFault), OrElse(FirstFault(tools, ToolFault), FirstFault(channels, ChannelFault)))
  }

  method ValidateScope(tiers: seq<string>, tools: seq<string>, channels: seq<string>) returns (fault: Option<string>)
    ensures fault == ScopeFault(tiers, tools, channels)
  {
    for i := 0 to |tiers|
      invariant FirstFault(tiers, TierFault) == FirstFault(tiers[i..], TierFault)
    {
      var t := tiers[i];
      if t !in KNOWLEDGE_TIERS {
        return Some("unknown knowledge tier '" + t + "'");
      }
      if t == "T3" {
        return Some("T3 is never-checked and cannot be granted");
      }
    }
    for i := 0 to |tools|
      invariant FirstFault(tools, ToolFault) == FirstFault(tools[i..], ToolFault)
    {
      if tools[i] !in TOOLS {
        return Some("unknown capability '" + tools[i] + "'");
      }
    }
    for i := 0 to |channels|
      invariant FirstFault(channels, ChannelFault) == FirstFault(channels[i..], ChannelFault)
    {
      if channels[i] !in CHANNELS {
        return Some("unknown channel '" + channels[i] + "'");
      }
    }
    return None;
  }

  lemma {:induction false} FirstFaultAt(xs: seq<string>, fault: string -> Option<string>, i: nat)
    requires i < |xs| && fault(xs[i]).Some? && forall j :: 0 <= j < i ==> fault(xs[j]).None?
    ensures FirstFault(xs, fault) == fault(xs[i])
  {
    if i == 0 {
    } else {
      assert fault(xs[0]).None?;
      FirstFaultAt(xs[1..], fault, i - 1);
    }
  }

  predicate GoodTiers(tiers: seq<string>) {
    forall j :: 0 <= j < |tiers| ==> tiers[j] in KNOWLEDGE_TIERS && tiers[j] != "T3"
  }

  predicate AllIn(xs: seq<string>, names: seq<string>) { forall j :: 0 <= j < |xs| ==> xs[j] in names }

  /** Which fault is reported, and with which words: the first of the tiers, then of the tools, then of the channels. */
  lemma FaultsSay(tiers: seq<string>, tools: seq<string>, channels: seq<string>, i: nat)
    ensures i < |tiers| && GoodTiers(tiers[..i]) && tiers[i] !in KNOWLEDGE_TIERS ==>
              ScopeFault(tiers, tools, channels) == Some("unknown knowledge tier '" + tiers[i] + "'")
    ensures i < |tiers| && GoodTiers(tiers[..i]) && tiers[i] == "T3" ==>
              ScopeFault(tiers, tools, channels) == Some("T3 is never-checked and cannot be granted")
    ensures GoodTiers(tiers) && i < |tools| && AllIn(tools[..i], TOOLS) && tools[i] !in TOOLS ==>
              ScopeFault(tiers, tools, channels) == Some("unknown capability '" + tools[i] + "'")
    ensures GoodTiers(tiers) && AllIn(tools, TOOLS)
            && i < |channels| && AllIn(channels[..i], CHANNELS) && channels[i] !in CHANNELS ==>
              ScopeFault(tiers, tools, channels) == Some("unknown channel '" + channels[i] + "'")
  {
    hide FirstFault;
    if i < |tiers| && GoodTiers(tiers[..i]) && (tiers[i] !in KNOWLEDGE_TIERS || tiers[i] == "T3") {
      forall j | 0 <= j < i ensures TierFault(tiers[j]).None? { assert tiers[..i][j] == tiers[j]; }
      FirstFaultAt(tiers, TierFault, i);
    }
    if i < |tools| && AllIn(tools[..i], TOOLS) && tools[i] !in TOOLS {
      forall j | 0 <= j < i ensures ToolFault(tools[j]).None? { assert tools[..i][j] == tools[j]; }
      FirstFaultAt(tools, ToolFault, i);
    }
    if i < |channels| && AllIn(channels[..i], CHANNELS) && channels[i] !in CHANNELS {
      forall j | 0 <= j < i ensures ChannelFault(channels[j]).None? { assert channels[..i][j] == channels[j]; }
      FirstFaultAt(channels, ChannelFault, i);
    }
  }

  /** An agent that stores a scope as written out. */
  function Stored(name: string, tiers: seq<string>, tools: seq<string>): Agent {
    Agent(name, Written(tools), Written(tiers))
  }

  /** Letters of either case, digits and the underscore. */
  predicate IsName(x: string) {
    forall i :: 0 <= i < |x| ==> x[i] == '_' || '0' <= x[i] <= '9' || 'A' <= x[i] <= 'Z' || 'a' <= x[i] <= 'z'
  }

  lemma TiersAreNames(x: string)
    requires x in KNOWLEDGE_TIERS
    ensures IsName(x)
  {
  }

  lemma ToolsAreNames(x: string)
    requires x in TOOLS
    ensures IsName(x)
  {
    hide IsName;
    FirstToolsAreNames(x);
    LastToolsAreNames(x);
    assert TOOLS == TOOLS[..7] + TOOLS[7..];
  }

  lemma FirstToolsAreNames(x: string)
    ensures x in TOOLS[..7] ==> IsName(x)
  {
  }

  lemma LastToolsAreNames(x: string)
    ensures x in TOOLS[7..] ==> IsName(x)
  {
  }

  lemma KnownNamesArePlain(x: string)
    requires x in KNOWLEDGE_TIERS || x in TOOLS
    ensures Plain(x)
  {
    hide IsName, Plain;
    if x in TOOLS { ToolsAreNames(x); } else { TiersAreNames(x); }
    NamesArePlain(x);
  }

  lemma NamesArePlain(x: string)
    requires IsName(x)
    ensures Plain(x)
  {
  }

  lemma KnownNamesReadBack(xs: seq<string>, names: seq<string>)
    requires names == KNOWLEDGE_TIERS || names == TOOLS
    requires forall x :: x in xs ==> x in names
    ensures Parsed(Written(xs)) == xs
  {
    hide Parsed, Written, Plain;
    forall x | x in xs ensures Plain(x) { KnownNamesArePlain(x); }
    RoundTripIff(xs);
  }

  /**
    Validation agrees with the decisions it guards: it accepts a scope exactly when
    the agent that stores it is granted every tier and tool listed, on known channels.
   */
  lemma ValidatesWhatIsGranted(name: string, tiers: seq<string>, tools: seq<string>, channels: seq<string>)
    ensures ScopeFault(tiers, tools, channels).None?
       <==> && (forall t :: t in tiers ==> ScopeGrantsTier(Stored(name, tiers, tools), t).Granted?)
            && (forall t :: t in tools ==> ScopeGrantsTool(Stored(name, tiers, tools), t).Granted?)
            && (forall c :: c in channels ==> c in CHANNELS)
  {
    hide Parsed, Written;
    if forall t :: t in tiers ==> t in KNOWLEDGE_TIERS { KnownNamesReadBack(tiers, KNOWLEDGE_TIERS); }
    if forall t :: t in tools ==> t in TOOLS { KnownNamesReadBack(tools, TOOLS); }
  }

  /** What a validated scope grants is what it lists and nothing else, and never T3. */
  lemma GrantsExactlyTheList(name: string, tiers: seq<string>, tools: seq<string>, channels: seq<string>, x: string)
    requires ScopeFault(tiers, tools, channels).None?
    ensures ScopeGrantsTier(Stored(name, tiers, tools), x).Granted? <==> x in tiers
    ensures ScopeGrantsTool(Stored(name, tiers, tools), x).Granted? <==> x in tools
    ensures "T3" !in tiers
  {
    hide Parsed, Written;
    KnownNamesReadBack(tiers, KNOWLEDGE_TIERS);
    KnownNamesReadBack(tools, TOOLS);
  }
}
