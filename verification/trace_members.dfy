// Trace Context headers read and written, said of the raw text (src/trace-context.ts): which
// list members count and for what, what a receiver accepts, and what a sender chooses.
module TraceMembers {
  import opened Common
  import opened Text
  import opened TraceContext

  // ---------------------------------------------------------------------
  // Members of a tracestate list
  // ---------------------------------------------------------------------

  /** The member is the entry with white space around its key and its value. */
  ghost predicate Pads(member: string, e: Entry) {
    exists a, b, c, d :: Blank(a) && Blank(b) && Blank(c) && Blank(d) && member == a + e.key + b + "=" + (c + e.value + d)
  }

  lemma NoEqualsIn(key: string, b: string, rest: string)
    requires '=' !in key && Blank(b)
    ensures Find(key + b + "=" + rest, '=', 0) == |key| + |b|
  {
    var left := key + b;
    var all := left + "=" + rest;
    assert '=' !in left;
    assert forall j | 0 <= j < |left| :: all[j] == left[j] && left[j] in left;
    assert all[|left|] == '=';
  }

  lemma ReadCore(b: string, c: string, e: Entry)
    requires Normal(e) && Blank(b) && Blank(c)
    ensures var core := e.key + b + "=" + (c + e.value);
            Trimmed(core) && Find(core, '=', 0) == |e.key| + |b| && core[..|e.key| + |b|] == e.key + b && core[|e.key| + |b| + 1..] == c + e.value
  {
    var core := e.key + b + "=" + (c + e.value);
    assert core[0] == e.key[0] && e.key[0] in e.key && core[|core| - 1] == e.value[|e.value| - 1];
    NoEqualsIn(e.key, b, c + e.value);
  }

  lemma ReadKeyAndValue(b: string, c: string, e: Entry)
    requires Normal(e) && Blank(b) && Blank(c)
    ensures Trim(e.key + b) == e.key && Trim(c + e.value) == e.value
  {
    assert e.key[0] in e.key && e.key[|e.key| - 1] in e.key;
    assert "" + e.key + b == e.key + b && c + e.value + "" == c + e.value;
    TrimOfPadded("", e.key, b);
    TrimOfPadded(c, e.value, "");
  }

  lemma PaddedCore(a: string, b: string, c: string, d: string, e: Entry)
    ensures a + e.key + b + "=" + (c + e.value + d) == a + (e.key + b + "=" + (c + e.value)) + d
  {
  }

  lemma ReadPadded(a: string, b: string, c: string, d: string, e: Entry)
    requires Normal(e) && Blank(a) && Blank(b) && Blank(c) && Blank(d)
    ensures ParseMember(a + e.key + b + "=" + (c + e.value + d)) == Some(e)
  {
    PaddedCore(a, b, c, d, e);
    ReadCore(b, c, e);
    TrimOfPadded(a, e.key + b + "=" + (c + e.value), d);
    ReadKeyAndValue(b, c, e);
  }

  lemma ReadPads(member: string, e: Entry)
    requires Normal(e) && Pads(member, e)
    ensures ParseMember(member) == Some(e) && ',' !in member
  {
    var a, b, c, d :| Blank(a) && Blank(b) && Blank(c) && Blank(d) && member == a + e.key + b + "=" + (c + e.value + d);
    ReadPadded(a, b, c, d, e);
    NoCommaPadded(a, e.key, b);
    NoCommaPadded(c, e.value, d);
  }

  lemma NoCommaPadded(a: string, text: string, b: string)
    requires Blank(a) && Blank(b) && ',' !in text
    ensures ',' !in a + text + b
  {
  }

  /** Each member is the entry at its place, normal, with white space around key and value. */
  ghost predicate AllPad(members: seq<string>, entries: seq<Entry>) {
    |members| == |entries| && forall i | 0 <= i < |entries| :: Normal(entries[i]) && Pads(members[i], entries[i])
  }

  lemma {:induction false} ReadAllPadded(entries: seq<Entry>, members: seq<string>)
    requires AllPad(members, entries)
    ensures Entries(members) == entries
  {
    if entries != [] {
      ReadPads(members[0], entries[0]);
      assert AllPad(members[1..], entries[1..]);
      ReadAllPadded(entries[1..], members[1..]);
      assert entries == [entries[0]] + entries[1..];
    }
  }

  lemma NoneHasCommas(entries: seq<Entry>, members: seq<string>)
    requires AllPad(members, entries)
    ensures forall m | m in members :: ',' !in m
  {
    forall i | 0 <= i < |members| ensures ',' !in members[i] { ReadPads(members[i], entries[i]); }
  }

  /** White space around the members, and around their first equals signs, changes nothing. */
  lemma BlanksDoNotMatter(entries: seq<Entry>, members: seq<string>)
    requires NormalList(entries) && |members| == |entries| && forall i | 0 <= i < |entries| :: Pads(members[i], entries[i])
    ensures Parsed(Join(members, ',')) == entries
  {
    forall i | 0 <= i < |entries| ensures Normal(entries[i]) { assert entries[i] in entries; }
    ReadAllPadded(entries, members);
    NoneHasCommas(entries, members);
    if entries == [] { EmptyListReadsBack(); } else { SplitOfJoin(members, ','); }
  }

  /** White space between two characters that are none. */
  ghost predicate InnerSpace(key: string) {
    exists i, j, k | 0 <= i < j < k < |key| :: !Space(key[i]) && Space(key[j]) && !Space(key[k])
  }

  /** No equals sign, or nothing before the first one, nothing after it, or white space inside what is before it. */
  ghost predicate Malformed(member: string) {
    '=' !in member ||
    exists key, value :: SplitsAtFirstEquals(member, key, value) && (Blank(key) || Blank(value) || InnerSpace(key))
  }

  ghost predicate SplitsAtFirstEquals(member: string, key: string, value: string) {
    member == key + "=" + value && '=' !in key
  }

  lemma OneFirstEquals(member: string, key: string, value: string, key': string, value': string)
    requires SplitsAtFirstEquals(member, key, value) && SplitsAtFirstEquals(member, key', value')
    ensures key == key' && value == value'
  {
    assert member[|key|] == '=' && member[|key'|] == '=';
    assert forall j | 0 <= j < |key| :: member[j] == key[j] && key[j] != '=';
    assert forall j | 0 <= j < |key'| :: member[j] == key'[j] && key'[j] != '=';
    assert key == member[..|key|] && value == member[|key| + 1..];
  }

  /** The trimmed key has no white space when the key has none inside. */
  lemma CoreOfKey(a: string, core: string, b: string, key: string)
    requires Blank(a) && Blank(b) && key == a + core + b && Trimmed(core) && !InnerSpace(key) && '=' !in key && ',' !in key
    ensures forall c | c in core :: !Space(c) && c != '=' && c != ','
  {
    forall j | 0 <= j < |core| ensures !Space(core[j]) && core[j] != '=' && core[j] != ',' {
      assert key[|a| + j] == core[j] && core[j] in key;
      assert key[|a|] == core[0] && key[|a| + |core| - 1] == core[|core| - 1];
    }
  }

  lemma FirstEquals(member: string) returns (key: string, value: string)
    requires '=' in member
    ensures SplitsAtFirstEquals(member, key, value)
  {
    var eq := Find(member, '=', 0);
    key, value := member[..eq], member[eq + 1..];
  }

  lemma PadsByParts(member: string, key: string, value: string, a: string, b: string, c: string, d: string, e: Entry)
    requires member == key + "=" + value && key == a + e.key + b && value == c + e.value + d
    requires Blank(a) && Blank(b) && Blank(c) && Blank(d)
    ensures Pads(member, e)
  {
  }

  /** A member that is not malformed is a normal entry between white space. */
  lemma WellFormedPads(member: string) returns (e: Entry)
    requires ',' !in member && !Malformed(member)
    ensures Normal(e) && Pads(member, e)
  {
    var key, value := FirstEquals(member);
    e := Entry(Trim(key), Trim(value));
    var a, b := TrimTakesBlanks(key);
    var c, d := TrimTakesBlanks(value);
    assert e.key == "" ==> Blank(key);
    assert e.value == "" ==> Blank(value);
    NoCommas(member, key, value);
    TrimIsTrimmed(key);
    TrimIsTrimmed(value);
    CoreOfKey(a, e.key, b, key);
    PadsByParts(member, key, value, a, b, c, d, e);
  }

  lemma NoCommas(member: string, key: string, value: string)
    requires member == key + "=" + value && ',' !in member
    ensures ',' !in key && ',' !in value
  {
    assert forall c | c in key || c in value :: c in member;
  }

  /** What is read before and after the first equals sign, and what is read of it. */
  lemma ReadParts(member: string) returns (key: string, value: string)
    requires ',' !in member && ParseMember(member).Some?
    ensures SplitsAtFirstEquals(member, key, value) && Trim(key) == ParseMember(member).value.key && Trim(value) == ParseMember(member).value.value
  {
    var trimmed := Trim(member);
    var eq := Find(trimmed, '=', 0);
    var a, d := TrimTakesBlanks(member);
    var left, right := trimmed[..eq], trimmed[eq + 1..];
    assert trimmed == left + "=" + right && '=' !in left;
    key, value := a + left, right + d;
    PartsAround(a, left, right, d);
    TrimLeftOfBlank(a, left);
    TrimOfBlankEnd(right, d);
  }

  lemma PartsAround(a: string, left: string, right: string, d: string)
    requires Blank(a) && '=' !in left
    ensures SplitsAtFirstEquals(a + (left + "=" + right) + d, a + left, right + d)
  {
  }

  lemma TrimOfBlankEnd(text: string, b: string)
    requires Blank(b)
    ensures Trim(text + b) == Trim(text)
  {
    var a, c := TrimTakesBlanks(text);
    TrimIsTrimmed(text);
    assert text + b == a + Trim(text) + (c + b);
    TrimOfPadded(a, Trim(text), c + b);
  }

  /** A member that is read as an entry has a key and a value that are not blank, and no white space inside its key. */
  lemma ReadIsWellFormed(member: string)
    requires ',' !in member && ParseMember(member).Some?
    ensures !Malformed(member)
  {
    var left, right := ReadParts(member);
    ParsedMemberIsNormal(member);
    var e := ParseMember(member).value;
    var a, b := TrimTakesBlanks(left);
    var c, d := TrimTakesBlanks(right);
    KeyIsSolid(a, e.key, b, left);
    assert right[|c|] == e.value[0];
    assert member[|left|] == '=';
    forall key, value | SplitsAtFirstEquals(member, key, value) ensures !Blank(key) && !Blank(value) && !InnerSpace(key) {
      OneFirstEquals(member, left, right, key, value);
    }
  }

  lemma KeyIsSolid(a: string, key: string, b: string, all: string)
    requires Blank(a) && Blank(b) && key != "" && (forall c | c in key :: !Space(c)) && all == a + key + b
    ensures !Blank(all) && !InnerSpace(all)
  {
    assert forall i | 0 <= i < |all| :: !Space(all[i]) <==> |a| <= i < |a| + |key| by {
      forall i | |a| <= i < |a| + |key| ensures !Space(all[i]) { assert all[i] == key[i - |a|] && key[i - |a|] in key; }
    }
    assert !Space(all[|a|]);
  }

  /** Exactly the malformed members are dropped; any other gives the entry that stands in it between white space. */
  lemma MemberCountsExactly(member: string)
    requires ',' !in member
    ensures Malformed(member) ==> Parsed(member) == []
    ensures !Malformed(member) ==> exists e :: Normal(e) && Pads(member, e) && Parsed(member) == [e]
  {
    assert Split(member, ',') == [member] by { SplitOfJoin([member], ','); }
    assert Entries([member]) == Kept(member) by { assert [member][1..] == []; }
    if Malformed(member) {
      if ParseMember(member).Some? { ReadIsWellFormed(member); }
    } else {
      var e := WellFormedPads(member);
      ReadPads(member, e);
    }
  }

  lemma {:induction false} EntriesOfBoth(a: seq<string>, b: seq<string>)
    ensures Entries(a + b) == Entries(a) + Entries(b)
  {
    if a == [] {
      assert a + b == b;
    } else {
      assert (a + b)[1..] == a[1..] + b;
      EntriesOfBoth(a[1..], b);
    }
  }

  /** A list of two parts gives the entries of both, in order and up to thirty-two. */
  lemma ListsCompose(a: string, b: string)
    ensures var both := Parsed(a) + Parsed(b);
            Parsed(a + "," + b) == if |both| <= 32 then both else both[..32]
  {
    SplitOfBoth(a, b, ',');
    EntriesOfBoth(Split(a, ','), Split(b, ','));
    FirstOfBoth(Entries(Split(a, ',')), Entries(Split(b, ',')));
  }

  lemma FirstOfBoth(x: seq<Entry>, y: seq<Entry>)
    ensures var both := FirstOf(x, 32) + FirstOf(y, 32);
            FirstOf(x + y, 32) == if |both| <= 32 then both else both[..32]
  {
  }

  // ---------------------------------------------------------------------
  // What the receiver accepts
  // ---------------------------------------------------------------------

  /** The first header of that name, in any case, has this value. */
  ghost predicate FirstHeader(headers: Headers, name: string, value: string) {
    exists i | 0 <= i < |headers| ::
      Lower(headers[i].0) == name && headers[i].1 == value && forall j | 0 <= j < i :: Lower(headers[j].0) != name
  }

  lemma {:induction false} LookupExactly(headers: Headers, name: string, value: string)
    ensures Lookup(headers, name) == Some(value) <==> FirstHeader(headers, Lower(name), value)
    decreases |headers|
  {
    if headers != [] && Lower(headers[0].0) != Lower(name) {
      var rest := headers[1..];
      LookupExactly(rest, name, value);
      if i :| 0 <= i < |rest| && Lower(rest[i].0) == Lower(name) && rest[i].1 == value && forall j | 0 <= j < i :: Lower(rest[j].0) != Lower(name) {
        assert forall j | 0 < j < i + 1 :: headers[j] == rest[j - 1];
        assert headers[i + 1] == rest[i];
      }
      if i :| 0 <= i < |headers| && Lower(headers[i].0) == Lower(name) && headers[i].1 == value && forall j | 0 <= j < i :: Lower(headers[j].0) != Lower(name) {
        assert i > 0 && rest[i - 1] == headers[i];
        assert forall j | 0 <= j < i - 1 :: rest[j] == headers[j + 1];
      }
    }
  }

  predicate LowerHex(s: string, n: nat) {
    |s| == n && forall i | 0 <= i < |s| :: '0' <= s[i] <= '9' || 'a' <= s[i] <= 'f'
  }

  predicate NotZero(s: string) { exists i | 0 <= i < |s| :: s[i] != '0' }

  /** The header text is these four parts, two of them ids that are not all zero, in a version that is not ff. */
  ghost predicate Spells(text: string, p: TraceParent) {
    text == p.version + "-" + p.traceId + "-" + p.parentId + "-" + p.flags &&
    LowerHex(p.version, 2) && LowerHex(p.traceId, 32) && LowerHex(p.parentId, 16) && LowerHex(p.flags, 2) &&
    p.version != "ff" && NotZero(p.traceId) && NotZero(p.parentId)
  }

  lemma PartsOfText(text: string, p: TraceParent)
    requires text == p.version + "-" + p.traceId + "-" + p.parentId + "-" + p.flags
    requires |p.version| == 2 && |p.traceId| == 32 && |p.parentId| == 16 && |p.flags| == 2
    ensures |text| == 55 && text[2] == '-' && text[35] == '-' && text[52] == '-'
    ensures text[..2] == p.version && text[3..35] == p.traceId && text[36..52] == p.parentId && text[53..] == p.flags
  {
  }

  lemma HexByPosition(s: string, n: nat)
    ensures Hex(s, n) <==> LowerHex(s, n)
    ensures AllZero(s) <==> !NotZero(s)
  {
    assert forall i | 0 <= i < |s| :: s[i] in s;
  }

  lemma MatchExactly(text: string, p: TraceParent)
    requires p.state == []
    ensures MatchTraceparent(text) == Some(p) && p.version != "ff" && !AllZero(p.traceId) && !AllZero(p.parentId) <==> Spells(text, p)
  {
    HexByPosition(p.version, 2);
    HexByPosition(p.traceId, 32);
    HexByPosition(p.parentId, 16);
    HexByPosition(p.flags, 2);
    if Spells(text, p) { PartsOfText(text, p); }
    if MatchTraceparent(text) == Some(p) { assert text == text[..2] + "-" + text[3..35] + "-" + text[36..52] + "-" + text[53..]; }
  }

  /**
   * A receiver takes over exactly these parts: the first traceparent header, without outer
   * white space and in lower case, spells them, and the state is the first tracestate header's.
   */
  lemma ExtractsExactly(headers: Headers, p: TraceParent)
    ensures Extracted(headers) == Some(p) <==>
      (exists raw :: FirstHeader(headers, "traceparent", raw) && Spells(Lower(Trim(raw)), p)) &&
      (forall raw :: FirstHeader(headers, "tracestate", raw) ==> p.state == Parsed(raw)) &&
      (p.state != [] ==> exists raw :: FirstHeader(headers, "tracestate", raw))
  {
    assert Lower("traceparent") == "traceparent" && Lower("tracestate") == "tracestate";
    forall raw ensures Lookup(headers, "traceparent") == Some(raw) <==> FirstHeader(headers, "traceparent", raw) { LookupExactly(headers, "traceparent", raw); }
    forall raw ensures Lookup(headers, "tracestate") == Some(raw) <==> FirstHeader(headers, "tracestate", raw) { LookupExactly(headers, "tracestate", raw); }
    var raw := Lookup(headers, "traceparent");
    if raw.Some? {
      MatchExactly(Lower(Trim(raw.value)), p.(state := []));
      assert Spells(Lower(Trim(raw.value)), p) <==> Spells(Lower(Trim(raw.value)), p.(state := []));
    }
  }

  // ---------------------------------------------------------------------
  // What the sender chooses
  // ---------------------------------------------------------------------

  /** The parent id is the explicit one, else the innermost span's, else the drawn one; an explicit one that is no id is refused. */
  lemma InjectedParent(c: Context, outer: seq<string>, span: string, id: string)
    ensures Inject(c, Some(id)).Ok? <==> LowerHex(id, 16)
    ensures LowerHex(id, 16) ==> Inject(c, Some(id)).value[0] == ("traceparent", "00-" + c.traceId + "-" + id + "-" + FlagsOf(c))
    ensures c.spans == outer + [span] ==> Inject(c, None).Ok? && Inject(c, None).value[0] == ("traceparent", "00-" + c.traceId + "-" + span + "-" + FlagsOf(c))
    ensures c.spans == [] ==> Inject(c, None).Ok? && Inject(c, None).value[0] == ("traceparent", "00-" + c.traceId + "-" + c.drawn + "-" + FlagsOf(c))
  {
    HexByPosition(id, 16);
  }

  /** A list written out: key, equals sign and value, separated by commas. */
  function ListText(state: seq<Entry>): string {
    Join(seq(|state|, i requires 0 <= i < |state| => state[i].key + "=" + state[i].value), ',')
  }

  lemma FormatIsListText(state: seq<Entry>)
    ensures FormatTracestate(state) == ListText(state)
  {
    assert Members(state) == seq(|state|, i requires 0 <= i < |state| => state[i].key + "=" + state[i].value);
  }

  /** The headers carry these flags and this state. */
  ghost predicate Carries(c: Context, headers: Headers, flags: string, state: seq<Entry>) {
    |headers| == (if state == [] then 1 else 2) &&
    headers[0] == ("traceparent", "00-" + c.traceId + "-" + ParentOf(c, None) + "-" + flags) &&
    (state != [] ==> headers[1] == ("tracestate", ListText(state)))
  }

  /** Flags and state are the call's own, else the inbound ones, else the sampled flag and no state. */
  lemma InjectedState(c: Context)
    ensures Inject(c, None).Ok?
    ensures Carries(c, Inject(c, None).value,
                    match c.flags case Some(own) => own case None => match c.inbound case Some(p) => p.flags case None => "01",
                    match c.state case Some(own) => own case None => match c.inbound case Some(p) => p.state case None => [])
  {
    FormatIsListText(StateOf(c));
  }
}
