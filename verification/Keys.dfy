/** The composite keys of the state store: printing, parsing, collisions, prefix scans and order. */
module Keys {
  import opened Outcomes
  import opened Records
  import opened Text

  datatype Kind =
    | State
    | WorkingMemory
    | Checkpoint(seqno: nat)
    | Conversation(turnId: string)
    | ToolLog(logId: string)

  datatype Key = Key(tenant: string, agent: string, kind: Kind)

  /******* Printing *******/

  function AgentStateKey(tenant: string, agent: string): string {
    tenant + KEY_SEP + agent + KEY_SEP + "state"
  }

  function WorkingMemoryKey(tenant: string, agent: string): string {
    tenant + KEY_SEP + agent + KEY_SEP + "working_memory"
  }

  function CheckpointPrefix(tenant: string, agent: string): string {
    tenant + KEY_SEP + agent + KEY_SEP + "checkpoint" + KEY_SEP
  }

  function CheckpointKey(tenant: string, agent: string, seqno: nat): string {
    CheckpointPrefix(tenant, agent) + ZeroPad(Decimal(seqno), 20)
  }

  function ConversationTurnKey(tenant: string, agent: string, turnId: string): string {
    tenant + KEY_SEP + agent + KEY_SEP + "conv" + KEY_SEP + turnId
  }

  function ToolLogKey(tenant: string, agent: string, logId: string): string {
    tenant + KEY_SEP + agent + KEY_SEP + "tool_log" + KEY_SEP + logId
  }

  // The part of a key after the agent id and its separator.
  function KindText(kind: Kind): string {
    match kind
    case State => "state"
    case WorkingMemory => "working_memory"
    case Checkpoint(seqno) => "checkpoint" + KEY_SEP + ZeroPad(Decimal(seqno), 20)
    case Conversation(turnId) => "conv" + KEY_SEP + turnId
    case ToolLog(logId) => "tool_log" + KEY_SEP + logId
  }

  function Print(key: Key): string {
    key.tenant + KEY_SEP + (key.agent + KEY_SEP + KindText(key.kind))
  }

  // The five builders all print keys of this one layout.
  lemma BuildersPrint(tenant: string, agent: string, seqno: nat, id: string)
    ensures AgentStateKey(tenant, agent) == Print(Key(tenant, agent, State))
    ensures WorkingMemoryKey(tenant, agent) == Print(Key(tenant, agent, WorkingMemory))
    ensures CheckpointKey(tenant, agent, seqno) == Print(Key(tenant, agent, Checkpoint(seqno)))
    ensures ConversationTurnKey(tenant, agent, id) == Print(Key(tenant, agent, Conversation(id)))
    ensures ToolLogKey(tenant, agent, id) == Print(Key(tenant, agent, ToolLog(id)))
  {
  }

  function OwnerText(tenant: string, agent: string): string {
    tenant + KEY_SEP + agent
  }

  /******* Validation *******/

  function ValidateId(value: string): Result<(), StateError> {
    if FirstSep(value) >= 0 then Err(InvalidInput)
    else if value == "" then Err(InvalidInput)
    else Ok(())
  }

  ghost predicate ValidId(value: string) {
    !HasSep(value) && value != ""
  }

  lemma ValidateIdAccepts(value: string)
    ensures ValidateId(value).Ok? <==> ValidId(value)
  {
  }

  ghost predicate ValidKey(key: Key) {
    ValidId(key.tenant) && ValidId(key.agent) && (key.kind.Checkpoint? ==> key.kind.seqno < U64_LIMIT)
  }

  /******* Parsing *******/

  function ParseKind(s: string): Option<Kind> {
    if s == "state" then Some(State)
    else if s == "working_memory" then Some(WorkingMemory)
    else if "checkpoint||" <= s then
      var digits := s[12..];
      if |digits| == 20 && 0 <= Number(digits) < U64_LIMIT then Some(Checkpoint(Number(digits))) else None
    else if "conv||" <= s then Some(Conversation(s[6..]))
    else if "tool_log||" <= s then Some(ToolLog(s[10..]))
    else None
  }

  // Where the agent id ends: no kind starts with a bar, so a third bar belongs to the id.
  function AgentEnd(s: string): (r: int)
    ensures r >= 0 ==> r + 2 <= |s|
  {
    var i := FirstSep(s);
    if i >= 0 && i + 2 < |s| && s[i + 2] == '|' then i + 1 else i
  }

  function Parse(s: string): Option<Key> {
    var i := FirstSep(s);
    if i < 0 then None
    else
      var rest := s[i + 2..];
      var j := AgentEnd(rest);
      if j < 0 then None
      else match ParseKind(rest[j + 2..])
        case None => None
        case Some(kind) => Some(Key(s[..i], rest[..j], kind))
  }

  lemma U64HasTwentyDigits()
    ensures Pow10(20) == 100000000000000000000 > U64_LIMIT
  {
    assert Pow10(5) == 100000;
    assert Pow10(10) == 100000 * Pow10(5);
    assert Pow10(15) == 100000 * Pow10(10);
    assert Pow10(20) == 100000 * Pow10(15);
  }

  lemma SeqnoText(seqno: nat)
    requires seqno < U64_LIMIT
    ensures ZeroPad(Decimal(seqno), 20) == FixedDigits(seqno, 20)
    ensures Number(FixedDigits(seqno, 20)) == seqno
  {
    U64HasTwentyDigits();
    PadIsFixed(seqno, 20);
    NumberOfFixed(seqno, 20);
  }

  lemma ParseKindText(kind: Kind)
    requires kind.Checkpoint? ==> kind.seqno < U64_LIMIT
    ensures ParseKind(KindText(kind)) == Some(kind)
  {
    var s := KindText(kind);
    match kind
    case State =>
    case WorkingMemory =>
    case Checkpoint(seqno) =>
      SeqnoText(seqno);
      assert s[..12] == "checkpoint||" && s[12..] == FixedDigits(seqno, 20);
    case Conversation(turnId) =>
      assert s[0] == 'c' && s[1] == 'o' && s[..6] == "conv||" && s[6..] == turnId;
      assert !("checkpoint||" <= s);
    case ToolLog(logId) =>
      assert s[0] == 't' && s[..10] == "tool_log||" && s[10..] == logId;
  }

  predicate StartsPlain(s: string) {
    |s| > 0 && s[0] != '|'
  }

  // An agent id is recovered from in front of any text that does not start with a bar.
  lemma AgentEndAfter(agent: string, rest: string)
    requires !HasSep(agent) && StartsPlain(rest)
    ensures AgentEnd(agent + KEY_SEP + rest) == |agent|
  {
    FirstSepAfter(agent, rest);
  }

  // What the parser makes of a text of the printed layout.
  lemma ParseText(tenant: string, agent: string, rest: string)
    requires !HasSep(tenant) && !HasSep(agent) && StartsPlain(rest)
    ensures var key := Parse(tenant + KEY_SEP + (agent + KEY_SEP + rest));
            && (EndsWithBar(tenant) ==> key.None? || key.value.tenant != tenant)
            && (!EndsWithBar(tenant) ==> key == match ParseKind(rest)
                                                case None => None
                                                case Some(kind) => Some(Key(tenant, agent, kind)))
  {
    var tail := agent + KEY_SEP + rest;
    var s := tenant + KEY_SEP + tail;
    FirstSepAfter(tenant, tail);
    if EndsWithBar(tenant) {
      assert |s[..FirstSep(s)]| < |tenant|;
    } else {
      AgentEndAfter(agent, rest);
      assert s[..|tenant|] == tenant && s[|tenant| + 2..] == tail;
      assert tail[..|agent|] == agent && tail[|agent| + 2..] == rest;
    }
  }

  lemma KindTextPlain(kind: Kind)
    ensures StartsPlain(KindText(kind))
  {
  }

  // The parser inverts the printer exactly on the keys whose tenant id does not end in a bar.
  // Agent ids may start and end with bars, and turn and log ids may be any text at all.
  lemma ParsePrint(key: Key)
    requires ValidKey(key)
    ensures Parse(Print(key)) == Some(key) <==> !EndsWithBar(key.tenant)
  {
    var rest := KindText(key.kind);
    KindTextPlain(key.kind);
    ParseKindText(key.kind);
    ParseText(key.tenant, key.agent, rest);
  }

  /******* Collisions *******/

  // One tenant id takes the bar that the other leaves to its agent id.
  predicate Shifted(t: string, a: string, t': string, a': string) {
    t' == t + "|" && a == "|" + a'
  }

  // Two texts t||a||rest agree only if the rests agree and the owners agree up to one shifted bar.
  lemma SplitUnique(t: string, a: string, rest: string, t': string, a': string, rest': string)
    requires ValidId(t) && ValidId(a) && ValidId(t') && ValidId(a')
    requires StartsPlain(rest) && StartsPlain(rest')
    requires t + KEY_SEP + (a + KEY_SEP + rest) == t' + KEY_SEP + (a' + KEY_SEP + rest')
    ensures rest == rest'
    ensures (t == t' && a == a') || Shifted(t, a, t', a') || Shifted(t', a', t, a)
  {
    var x, x' := a + KEY_SEP + rest, a' + KEY_SEP + rest';
    FirstSepAfter(t, x);
    FirstSepAfter(t', x');
    if |t| == |t'| {
      SameLengthSplit(t, x, t', x');
      AgentSplit(a, rest, a', rest');
    } else if |t'| == |t| + 1 {
      DropTenant(t, x, t', x');
      NoSepInShift(a, rest, a', rest', x);
      ShiftedText(a', rest');
      AgentSplit(a, rest, "|" + a', rest');
    } else {
      DropTenant(t', x', t, x);
      NoSepInShift(a', rest', a, rest, x');
      ShiftedText(a, rest);
      AgentSplit(a', rest', "|" + a, rest);
    }
  }

  lemma SameLengthSplit(t: string, x: string, t': string, x': string)
    requires |t| == |t'| && t + KEY_SEP + x == t' + KEY_SEP + x'
    ensures t == t' && x == x'
  {
    var w, w' := t + KEY_SEP + x, t' + KEY_SEP + x';
    assert t == w[..|t|] && t' == w'[..|t|];
    assert x == w[|t| + 2..] && x' == w'[|t| + 2..];
  }

  // An agent id without a separator is determined by the text that it begins.
  lemma AgentSplit(a: string, rest: string, a': string, rest': string)
    requires !HasSep(a) && !HasSep(a') && StartsPlain(rest) && StartsPlain(rest')
    requires a + KEY_SEP + rest == a' + KEY_SEP + rest'
    ensures a == a' && rest == rest'
  {
    AgentEndAfter(a, rest);
    AgentEndAfter(a', rest');
    SameLengthSplit(a, rest, a', rest');
  }

  lemma ShiftedText(a: string, rest: string)
    ensures "|" + (a + KEY_SEP + rest) == ("|" + a) + KEY_SEP + rest
  {
  }

  // The longer tenant id ends with the first bar of the separator, which leaves one bar over.
  lemma DropTenant(t: string, x: string, t': string, x': string)
    requires |t'| == |t| + 1 && t + KEY_SEP + x == t' + KEY_SEP + x'
    ensures t' == t + "|" && x == "|" + x'
  {
    var w, w' := t + KEY_SEP + x, t' + KEY_SEP + x';
    assert t' == w'[..|t| + 1] == w[..|t| + 1] == t + "|";
    assert w[|t| + 2..] == x && w'[|t| + 2..] == "|" + x';
  }

  lemma FirstSepAtStart(s: string)
    ensures SepAt(s, 0) ==> FirstSep(s) == 0
  {
  }

  // If a' started with a bar too, x would start with two bars and a would have to be a single bar
  // with a bar left over for `rest`.
  lemma NoSepInShift(a: string, rest: string, a': string, rest': string, x: string)
    requires ValidId(a) && ValidId(a') && StartsPlain(rest)
    requires x == a + KEY_SEP + rest && x == "|" + (a' + KEY_SEP + rest')
    ensures !HasSep("|" + a')
  {
    AgentEndAfter(a, rest);
    FirstSepAtStart(x);
    assert rest[0] == x[|a| + 2] && x[1] == a'[0];
    assert |a'| > 1 ==> x[2] == a'[1] && !SepAt(a', 0);
    assert |a'| == 1 ==> x[2] == x[3] == '|';
    assert a'[0] != '|';
    assert forall i :: SepAt("|" + a', i) && i > 0 ==> SepAt(a', i - 1);
  }

  lemma KindTextInjective(kind: Kind, kind': Kind)
    requires kind.Checkpoint? ==> kind.seqno < U64_LIMIT
    requires kind'.Checkpoint? ==> kind'.seqno < U64_LIMIT
    ensures KindText(kind) == KindText(kind') <==> kind == kind'
  {
    ParseKindText(kind);
    ParseKindText(kind');
  }

  lemma SameText(t: string, a: string, rest: string, t': string, a': string, rest': string)
    requires ValidId(t) && ValidId(a) && ValidId(t') && ValidId(a')
    requires StartsPlain(rest) && StartsPlain(rest')
    ensures t + KEY_SEP + (a + KEY_SEP + rest) == t' + KEY_SEP + (a' + KEY_SEP + rest') <==>
            rest == rest' && OwnerText(t, a) == OwnerText(t', a')
  {
    if t + KEY_SEP + (a + KEY_SEP + rest) == t' + KEY_SEP + (a' + KEY_SEP + rest') {
      SplitUnique(t, a, rest, t', a', rest');
      OwnersCollide(t, a, t', a');
    }
    OwnerTextIn(t, a, rest);
    OwnerTextIn(t', a', rest');
  }

  lemma OwnerTextIn(t: string, a: string, rest: string)
    ensures t + KEY_SEP + (a + KEY_SEP + rest) == OwnerText(t, a) + (KEY_SEP + rest)
  {
  }

  // Equal keys: the kinds agree, and the owner texts agree.
  lemma SameKey(x: Key, y: Key)
    requires ValidKey(x) && ValidKey(y)
    ensures Print(x) == Print(y) <==>
            x.kind == y.kind && OwnerText(x.tenant, x.agent) == OwnerText(y.tenant, y.agent)
  {
    var rest, rest' := KindText(x.kind), KindText(y.kind);
    KindTextPlain(x.kind);
    KindTextPlain(y.kind);
    KindTextInjective(x.kind, y.kind);
    SameText(x.tenant, x.agent, rest, y.tenant, y.agent, rest');
  }

  lemma ShiftedAgree(t: string, a: string, t': string, a': string)
    requires Shifted(t, a, t', a')
    ensures OwnerText(t, a) == OwnerText(t', a')
  {
  }

  // Owners collide exactly when they differ by one shifted bar.
  lemma OwnersCollide(t: string, a: string, t': string, a': string)
    requires ValidId(t) && ValidId(a) && ValidId(t') && ValidId(a')
    ensures OwnerText(t, a) == OwnerText(t', a') <==>
            (t == t' && a == a') || Shifted(t, a, t', a') || Shifted(t', a', t, a)
  {
    if OwnerText(t, a) == OwnerText(t', a') {
      OwnerTextIn(t, a, "s");
      OwnerTextIn(t', a', "s");
      SplitUnique(t, a, "s", t', a', "s");
    }
    if Shifted(t, a, t', a') { ShiftedAgree(t, a, t', a'); }
    if Shifted(t', a', t, a) { ShiftedAgree(t', a', t, a); }
  }

  // A check on one pair of ids: a bar could move across its separator and leave two valid ids.
  predicate Ambiguous(t: string, a: string) {
    || (EndsWithBar(t) && |t| > 1 && !StartsWithBar(a))
    || (StartsWithBar(a) && |a| > 1 && !EndsWithBar(t))
  }

  // Ids accepted by ValidateId share all their keys with some other accepted pair exactly when
  // they are ambiguous.
  lemma ValidationGap(t: string, a: string)
    requires ValidId(t) && ValidId(a)
    ensures (exists t', a' :: ValidId(t') && ValidId(a') && (t != t' || a != a')
                              && OwnerText(t, a) == OwnerText(t', a'))
            <==> Ambiguous(t, a)
  {
    if Ambiguous(t, a) {
      var t', a' := MoveBar(t, a);
      assert OwnerText(t, a) == OwnerText(t', a');
    }
    forall t', a' | ValidId(t') && ValidId(a') && (t != t' || a != a') && OwnerText(t, a) == OwnerText(t', a')
      ensures Ambiguous(t, a)
    {
      OwnersCollide(t, a, t', a');
      if Shifted(t, a, t', a') {
        assert EndsWithBar(t) && |t| > 0 ==> SepAt(t', |t| - 1);
      } else {
        assert t == t' + "|" && a' == "|" + a;
        assert StartsWithBar(a) ==> SepAt(a', 0);
      }
    }
  }

  lemma MoveBar(t: string, a: string) returns (t': string, a': string)
    requires ValidId(t) && ValidId(a) && Ambiguous(t, a)
    ensures ValidId(t') && ValidId(a') && t != t' && OwnerText(t, a) == OwnerText(t', a')
  {
    if EndsWithBar(t) && |t| > 1 && !StartsWithBar(a) {
      t', a' := t[..|t| - 1], "|" + a;
      assert forall i :: SepAt(t', i) ==> SepAt(t, i);
      assert forall i :: SepAt(a', i) ==> SepAt(a, i - 1);
      assert t == t' + "|";
      ShiftedAgree(t', a', t, a);
    } else {
      t', a' := t + "|", a[1..];
      assert forall i :: SepAt(t', i) ==> SepAt(t, i);
      assert forall i :: SepAt(a', i) ==> SepAt(a, i + 1);
      assert a == "|" + a';
      ShiftedAgree(t, a, t', a');
    }
  }

  // Among tenants that do not end in a bar no two different keys print the same text.
  lemma PrintInjective(x: Key, y: Key)
    requires ValidKey(x) && ValidKey(y) && !EndsWithBar(x.tenant) && !EndsWithBar(y.tenant)
    ensures Print(x) == Print(y) <==> x == y
  {
    ParsePrint(x);
    ParsePrint(y);
  }

  /******* Prefix scans *******/

  // Listing by tenant||agent||checkpoint|| finds exactly the checkpoints of that owner text.
  lemma CheckpointScan(t: string, a: string, key: Key)
    requires ValidId(t) && ValidId(a) && ValidKey(key)
    ensures CheckpointPrefix(t, a) <= Print(key) <==>
            key.kind.Checkpoint? && OwnerText(key.tenant, key.agent) == OwnerText(t, a)
  {
    var rest := KindText(key.kind);
    KindTextPlain(key.kind);
    CheckpointText(key.kind);
    if CheckpointPrefix(t, a) <= Print(key) {
      var tail := "checkpoint||" + Print(key)[|CheckpointPrefix(t, a)|..];
      PrefixText(t, a, Print(key));
      SameText(t, a, tail, key.tenant, key.agent, rest);
    }
    if "checkpoint||" <= rest && OwnerText(key.tenant, key.agent) == OwnerText(t, a) {
      SameText(t, a, rest, key.tenant, key.agent, rest);
      PrefixOf(t, a, rest);
    }
  }

  lemma CheckpointText(kind: Kind)
    ensures "checkpoint||" <= KindText(kind) <==> kind.Checkpoint?
  {
    var s := KindText(kind);
    assert s[0] == "checkpoint||"[0] && s[1] == "checkpoint||"[1] ==> kind.Checkpoint?;
  }

  lemma PrefixText(t: string, a: string, w: string)
    requires CheckpointPrefix(t, a) <= w
    ensures w == t + KEY_SEP + (a + KEY_SEP + ("checkpoint||" + w[|CheckpointPrefix(t, a)|..]))
  {
  }

  lemma PrefixOf(t: string, a: string, rest: string)
    requires "checkpoint||" <= rest
    ensures CheckpointPrefix(t, a) <= t + KEY_SEP + (a + KEY_SEP + rest)
  {
  }

  // Listing by tenant|| finds that tenant's keys, and also those in which a bar hides the border
  // between the tenant id and the agent id.
  lemma TenantScan(t: string, key: Key)
    requires ValidId(t) && ValidKey(key)
    ensures t + KEY_SEP <= Print(key) <==>
            || key.tenant == t
            || key.tenant == t + "|"
            || (t == key.tenant + "|" && StartsWithBar(key.agent))
  {
    var tail := key.agent + KEY_SEP + KindText(key.kind);
    assert StartsWithBar(tail) <==> StartsWithBar(key.agent);
    TenantScanText(t, key.tenant, tail);
  }

  lemma TenantScanText(t: string, u: string, tail: string)
    requires ValidId(t) && ValidId(u) && |tail| > 0
    ensures t + KEY_SEP <= u + KEY_SEP + tail <==> u == t || u == t + "|" || (t == u + "|" && StartsWithBar(tail))
  {
    var w := u + KEY_SEP + tail;
    FirstSepAfter(u, tail);
    if t + KEY_SEP <= w {
      var x := w[|t| + 2..];
      assert w == t + KEY_SEP + x;
      FirstSepAfter(t, x);
      if |u| == |t| { SameLengthSplit(t, x, u, tail); }
      if |u| == |t| + 1 { DropTenant(t, x, u, tail); }
      if |t| == |u| + 1 { DropTenant(u, tail, t, x); }
    }
    if t == u + "|" && StartsWithBar(tail) {
      assert w == t + KEY_SEP + tail[1..];
    }
    if u == t + "|" {
      assert w == t + KEY_SEP + ("|" + tail);
    }
  }

  // So with tenants that do not end in a bar both scans are exact.
  lemma ScansAreExact(t: string, a: string, key: Key)
    requires ValidId(t) && ValidId(a) && ValidKey(key) && !EndsWithBar(t) && !EndsWithBar(key.tenant)
    ensures t + KEY_SEP <= Print(key) <==> key.tenant == t
    ensures CheckpointPrefix(t, a) <= Print(key) <==>
            key.tenant == t && key.agent == a && key.kind.Checkpoint?
  {
    TenantScan(t, key);
    CheckpointScan(t, a, key);
    OwnersCollide(t, a, key.tenant, key.agent);
    assert t != key.tenant + "|" && key.tenant != t + "|";
  }

  /******* Order *******/

  // Checkpoint keys of one agent sort lexicographically as their 64-bit numbers do.
  lemma CheckpointKeyOrder(t: string, a: string, m: nat, n: nat)
    requires m < U64_LIMIT && n < U64_LIMIT
    ensures LexLess(CheckpointKey(t, a, m), CheckpointKey(t, a, n)) <==> m < n
  {
    U64HasTwentyDigits();
    SeqnoText(m);
    SeqnoText(n);
    FixedOrder(m, n, 20);
    LexCommonPrefix(CheckpointPrefix(t, a), FixedDigits(m, 20), FixedDigits(n, 20));
  }
}
