/** KV-cache namespace prefixes, `tenant:LABEL:agent_type:hash`, and when they determine their parts. */
module Namespace {
  import opened Outcomes
  import opened Records

  datatype Sensitivity = Unspecified | Public | Internal | Sensitive | Restricted

  // `sensitivity` is the raw protobuf number, which need not name a level.
  datatype NamespaceKey = NamespaceKey(tenant: string, sensitivity: int, agentType: string, prefixHash: Bytes)

  /******* Building and printing *******/

  function SensitivityNumber(s: Sensitivity): int {
    match s
    case Unspecified => 0
    case Public => 1
    case Internal => 2
    case Sensitive => 3
    case Restricted => 4
  }

  // An unknown number falls back to Unspecified.
  function SensitivityOf(number: int): Sensitivity {
    match number
    case 1 => Public
    case 2 => Internal
    case 3 => Sensitive
    case 4 => Restricted
    case _ => Unspecified
  }

  function SensitivityLabel(s: Sensitivity): string {
    match s
    case Public => "PUBLIC"
    case Internal => "INTERNAL"
    case Sensitive => "SENSITIVE"
    case Restricted => "RESTRICTED"
    case Unspecified => "UNSPECIFIED"
  }

  function BuildNamespaceKey(sha256: Bytes -> Bytes, tenant: string, sensitivity: Sensitivity,
                             agentType: string, promptPrefix: Bytes): NamespaceKey {
    NamespaceKey(tenant, SensitivityNumber(sensitivity), agentType, sha256(promptPrefix))
  }

  function HexDigit(d: nat): char
    requires d < 16
  {
    ['0', '1', '2', '3', '4', '5', '6', '7', '8', '9', 'a', 'b', 'c', 'd', 'e', 'f'][d]
  }

  function HexEncode(bytes: Bytes): string {
    if bytes == [] then ""
    else [HexDigit(bytes[0] as nat / 16), HexDigit(bytes[0] as nat % 16)] + HexEncode(bytes[1..])
  }

  function KeyToPrefix(key: NamespaceKey): string {
    key.tenant + ":" + SensitivityLabel(SensitivityOf(key.sensitivity)) + ":" + key.agentType + ":"
    + HexEncode(key.prefixHash)
  }

  /******* Parsing *******/

  function HexValue(c: char): int {
    if '0' <= c <= '9' then c as int - '0' as int
    else if 'a' <= c <= 'f' then c as int - 'a' as int + 10
    else -1
  }

  function HexDecode(s: string): Option<Bytes> {
    if s == "" then Some([])
    else if |s| == 1 || HexValue(s[0]) < 0 || HexValue(s[1]) < 0 then None
    else match HexDecode(s[2..])
      case None => None
      case Some(rest) => Some([(16 * HexValue(s[0]) + HexValue(s[1])) as byte] + rest)
  }

  function LabelSensitivity(text: string): Option<Sensitivity> {
    if text == "PUBLIC" then Some(Public)
    else if text == "INTERNAL" then Some(Internal)
    else if text == "SENSITIVE" then Some(Sensitive)
    else if text == "RESTRICTED" then Some(Restricted)
    else if text == "UNSPECIFIED" then Some(Unspecified)
    else None
  }

  // The position of the first colon, or the length if there is none.
  function FirstColon(s: string): (r: nat)
    ensures r <= |s| && ':' !in s[..r] && (r < |s| ==> s[r] == ':')
  {
    if s == "" || s[0] == ':' then 0 else 1 + FirstColon(s[1..])
  }

  // One past the position of the last colon, or 0 if there is none.
  function AfterLastColon(s: string): (r: nat)
    ensures r <= |s| && ':' !in s[r..] && (r > 0 ==> s[r - 1] == ':')
  {
    if s == "" then 0
    else if s[|s| - 1] == ':' then |s|
    else AfterLastColon(s[..|s| - 1])
  }

  datatype Parts = Parts(tenant: string, sensitivity: Sensitivity, agentType: string, prefixHash: Bytes)

  function PartsOf(key: NamespaceKey): Parts {
    Parts(key.tenant, SensitivityOf(key.sensitivity), key.agentType, key.prefixHash)
  }

  // Tenant up to the first colon, label up to the second, hash after the last.
  function ParsePrefix(s: string): Option<Parts> {
    var i := FirstColon(s);
    if i == |s| then None
    else
      var rest := s[i + 1..];
      var j := FirstColon(rest);
      if j == |rest| then None
      else
        var tail := rest[j + 1..];
        var k := AfterLastColon(tail);
        if k == 0 then None
        else match (LabelSensitivity(rest[..j]), HexDecode(tail[k..]))
          case (Some(sensitivity), Some(hash)) => Some(Parts(s[..i], sensitivity, tail[..k - 1], hash))
          case _ => None
  }

  /******* Round trip *******/

  lemma HexByte(b: byte)
    ensures var high, low := HexDigit(b as nat / 16), HexDigit(b as nat % 16);
            && HexValue(high) == b as int / 16 && HexValue(low) == b as int % 16
            && 16 * HexValue(high) + HexValue(low) == b as int
            && high != ':' && low != ':'
  {
  }

  lemma {:induction false} HexRoundTrip(bytes: Bytes)
    ensures HexDecode(HexEncode(bytes)) == Some(bytes)
    ensures ':' !in HexEncode(bytes)
  {
    if bytes != [] {
      HexRoundTrip(bytes[1..]);
      var s := HexEncode(bytes);
      assert s[2..] == HexEncode(bytes[1..]);
      HexByte(bytes[0]);
      assert bytes == [bytes[0]] + bytes[1..];
    }
  }

  lemma LabelRoundTrip(s: Sensitivity)
    ensures LabelSensitivity(SensitivityLabel(s)) == Some(s)
    ensures ':' !in SensitivityLabel(s)
  {
  }

  lemma FirstColonAfter(s: string, rest: string)
    requires ':' !in s
    ensures FirstColon(s + ":" + rest) == |s|
  {
    var w := s + ":" + rest;
    assert w[..|s|] == s && w[|s|] == ':';
  }

  lemma AfterLastColonBefore(s: string, rest: string)
    requires ':' !in rest
    ensures AfterLastColon(s + ":" + rest) == |s| + 1
  {
    var w := s + ":" + rest;
    assert w[|s| + 1..] == rest && w[|s|] == ':';
  }

  lemma PrefixLayout(key: NamespaceKey)
    ensures KeyToPrefix(key) ==
            key.tenant + ":" + (SensitivityLabel(SensitivityOf(key.sensitivity)) + ":" +
                                (key.agentType + ":" + HexEncode(key.prefixHash)))
  {
  }

  lemma ParseLayout(tenant: string, level: string, agentType: string, hash: string)
    requires ':' !in tenant && ':' !in level && ':' !in hash
    requires LabelSensitivity(level).Some? && HexDecode(hash).Some?
    ensures ParsePrefix(tenant + ":" + (level + ":" + (agentType + ":" + hash))) ==
            Some(Parts(tenant, LabelSensitivity(level).value, agentType, HexDecode(hash).value))
  {
    var tail := agentType + ":" + hash;
    var rest := level + ":" + tail;
    SplitAtColon(tenant, rest);
    SplitAtColon(level, tail);
    AfterLastColonBefore(agentType, hash);
    assert tail[..|agentType|] == agentType && tail[|agentType| + 1..] == hash;
  }

  lemma SplitAtColon(first: string, rest: string)
    requires ':' !in first
    ensures var s := first + ":" + rest;
            FirstColon(s) == |first| && s[..|first|] == first && s[|first| + 1..] == rest
  {
    FirstColonAfter(first, rest);
  }

  lemma FirstColonWithin(s: string, rest: string)
    requires ':' in s
    ensures FirstColon(s + rest) < |s|
  {
    var w := s + rest;
    var j :| 0 <= j < |s| && s[j] == ':';
    assert w[j] == ':' && forall i | j < i <= |w| :: w[j] in w[..i];
  }

  // The prefix determines tenant, sensitivity level, agent type and hash exactly when the tenant
  // id has no colon.  The agent type may contain colons.
  lemma PrefixRoundTrip(key: NamespaceKey)
    ensures ParsePrefix(KeyToPrefix(key)) == Some(PartsOf(key)) <==> ':' !in key.tenant
  {
    PrefixLayout(key);
    if ':' in key.tenant {
      var s := KeyToPrefix(key);
      var rest := s[|key.tenant|..];
      assert s == key.tenant + rest;
      FirstColonWithin(key.tenant, rest);
      assert |s[..FirstColon(s)]| != |key.tenant|;
    } else {
      LabelRoundTrip(SensitivityOf(key.sensitivity));
      HexRoundTrip(key.prefixHash);
      ParseLayout(key.tenant, SensitivityLabel(SensitivityOf(key.sensitivity)), key.agentType, HexEncode(key.prefixHash));
    }
  }

  // The label a prefix carries, by protobuf number; a number that names no level counts as unspecified.
  lemma PrefixStart(key: NamespaceKey)
    ensures var level := if key.sensitivity == 1 then "PUBLIC" else if key.sensitivity == 2 then "INTERNAL"
                         else if key.sensitivity == 3 then "SENSITIVE" else if key.sensitivity == 4 then "RESTRICTED"
                         else "UNSPECIFIED";
            key.tenant + ":" + level + ":" <= KeyToPrefix(key)
  {
  }

  lemma BuiltParts(sha256: Bytes -> Bytes, tenant: string, level: Sensitivity, agentType: string, prompt: Bytes)
    ensures var key := BuildNamespaceKey(sha256, tenant, level, agentType, prompt);
            PartsOf(key) == Parts(tenant, level, agentType, sha256(prompt)) && key.tenant == tenant
  {
  }

  // The prefix of a request's key determines its tenant, level, agent type and prompt hash exactly
  // when the tenant id has no colon.
  lemma BuiltPrefixRoundTrip(sha256: Bytes -> Bytes, tenant: string, level: Sensitivity, agentType: string, prompt: Bytes)
    ensures var prefix := KeyToPrefix(BuildNamespaceKey(sha256, tenant, level, agentType, prompt));
            ParsePrefix(prefix) == Some(Parts(tenant, level, agentType, sha256(prompt))) <==> ':' !in tenant
  {
    var key := BuildNamespaceKey(sha256, tenant, level, agentType, prompt);
    PrefixRoundTrip(key);
    BuiltParts(sha256, tenant, level, agentType, prompt);
  }

  // Requests of colon-free tenants share a prefix exactly when tenant, level, agent type and hash of
  // the prompt all agree; in particular two tenants never do, even if their prompts collide.
  lemma BuiltPrefixesAgree(sha256: Bytes -> Bytes, t: string, s: Sensitivity, a: string, p: Bytes,
                           t': string, s': Sensitivity, a': string, p': Bytes)
    requires ':' !in t && ':' !in t'
    ensures KeyToPrefix(BuildNamespaceKey(sha256, t, s, a, p)) == KeyToPrefix(BuildNamespaceKey(sha256, t', s', a', p'))
            <==> t == t' && s == s' && a == a' && sha256(p) == sha256(p')
  {
    BuiltPrefixRoundTrip(sha256, t, s, a, p);
    BuiltPrefixRoundTrip(sha256, t', s', a', p');
  }

  /******* Tenants sharing a prefix *******/

  // Tenant u continues tenant t with a sensitivity label.
  ghost predicate Continues(t: string, u: string) {
    exists s: Sensitivity :: ContinuesWith(t, u, s)
  }

  predicate ContinuesWith(t: string, u: string, s: Sensitivity) {
    var v := t + ":" + SensitivityLabel(s);
    u == v || v + ":" <= u
  }

  // Two keys of different tenants can print the same prefix exactly when one tenant id continues
  // the other with a label; in particular never when neither id has a colon.
  lemma TenantsShareAPrefix(t: string, u: string)
    requires t != u
    ensures (exists k: NamespaceKey, l: NamespaceKey :: k.tenant == t && l.tenant == u && KeyToPrefix(k) == KeyToPrefix(l))
            <==> Continues(t, u) || Continues(u, t)
    ensures ':' !in t && ':' !in u ==> !Continues(t, u) && !Continues(u, t)
  {
    ContinuesHasColon(t, u);
    ContinuesHasColon(u, t);
    forall k: NamespaceKey, l: NamespaceKey | k.tenant == t && l.tenant == u && KeyToPrefix(k) == KeyToPrefix(l)
      ensures Continues(t, u) || Continues(u, t)
    {
      if |t| <= |u| { SharedPrefixContinues(k, l); } else { SharedPrefixContinues(l, k); }
    }
    if Continues(t, u) {
      var k, l := KeysSharingAPrefix(t, u);
    } else if Continues(u, t) {
      var l, k := KeysSharingAPrefix(u, t);
      assert k.tenant == t && l.tenant == u && KeyToPrefix(k) == KeyToPrefix(l);
    }
  }

  lemma ContinuesHasColon(t: string, u: string)
    ensures Continues(t, u) ==> ':' in u
  {
    forall s: Sensitivity | ContinuesWith(t, u, s)
      ensures ':' in u
    {
      assert u[|t|] == ':';
    }
  }

  // Keys with an empty hash, for building examples.
  lemma EmptyHashPrefix(t: string, s: Sensitivity, agentType: string)
    ensures KeyToPrefix(NamespaceKey(t, SensitivityNumber(s), agentType, [])) ==
            t + ":" + SensitivityLabel(s) + ":" + agentType + ":"
  {
  }

  lemma KeysSharingAPrefix(t: string, u: string) returns (k: NamespaceKey, l: NamespaceKey)
    requires Continues(t, u)
    ensures k.tenant == t && l.tenant == u && KeyToPrefix(k) == KeyToPrefix(l)
  {
    var s: Sensitivity :| ContinuesWith(t, u, s);
    var v := t + ":" + SensitivityLabel(s);
    var more := if u == v then "" else u[|v| + 1..] + ":";
    var agentType := more + "PUBLIC:x";
    k := NamespaceKey(t, SensitivityNumber(s), agentType, []);
    l := NamespaceKey(u, SensitivityNumber(Public), "x", []);
    EmptyHashPrefix(t, s, agentType);
    EmptyHashPrefix(u, Public, "x");
    ContinuedText(u, v, more);
  }

  lemma ContinuedText(u: string, v: string, more: string)
    requires (u == v && more == "") || (v + ":" <= u && more == u[|v| + 1..] + ":")
    ensures v + ":" + (more + "PUBLIC:x") + ":" == u + ":" + "PUBLIC" + ":" + "x" + ":"
  {
  }

  lemma SharedPrefixContinues(k: NamespaceKey, l: NamespaceKey)
    requires KeyToPrefix(k) == KeyToPrefix(l) && k.tenant != l.tenant && |k.tenant| <= |l.tenant|
    ensures Continues(k.tenant, l.tenant)
  {
    var s := SensitivityOf(k.sensitivity);
    PrefixLayout(k);
    PrefixLayout(l);
    LabelRoundTrip(s);
    SharedText(k.tenant, SensitivityLabel(s), k.agentType + ":" + HexEncode(k.prefixHash),
               l.tenant, SensitivityLabel(SensitivityOf(l.sensitivity)) + ":" + (l.agentType + ":" + HexEncode(l.prefixHash)));
    assert ContinuesWith(k.tenant, l.tenant, s);
  }

  lemma SharedText(t: string, level: string, tail: string, u: string, uRest: string)
    requires t + ":" + (level + ":" + tail) == u + ":" + uRest
    requires t != u && |t| <= |u| && ':' !in level
    ensures u == t + ":" + level || t + ":" + level + ":" <= u
  {
    var w := t + ":" + (level + ":" + tail);
    assert w[..|t|] == t && w[..|u|] == u && w[|t|] == ':';
    assert |t| != |u|;
    var more := u[|t| + 1..];
    assert u[..|t|] == t && u[|t|] == ':';
    assert u == t + ":" + more;
    assert w[|t| + 1..] == level + ":" + tail;
    assert w[|t| + 1..] == more + ":" + uRest;
    SharedRest(level, tail, more, uRest);
    if more != level {
      var last := more[|level| + 1..];
      assert more == level + ":" + last;
      assert u == t + ":" + level + ":" + last;
    }
  }

  lemma SharedRest(level: string, tail: string, more: string, uRest: string)
    requires level + ":" + tail == more + ":" + uRest && ':' !in level
    ensures more == level || level + ":" <= more
  {
    var rest := level + ":" + tail;
    FirstColonAfter(level, tail);
    assert rest[..|level|] == level && rest[..|more|] == more && rest[|level|] == ':';
    if ':' !in more {
      FirstColonAfter(more, uRest);
    } else {
      assert more + (":" + uRest) == rest;
      FirstColonWithin(more, ":" + uRest);
      assert more[..|level| + 1] == rest[..|level| + 1] == level + ":";
    }
  }
}
