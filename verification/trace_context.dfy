// W3C Trace Context headers: the lenient list parser, the printer, and the pair
// of inject and extract (src/trace-context.ts).
module TraceContext {
  import opened Common
  import opened Text

  // ---------------------------------------------------------------------
  // tracestate
  // ---------------------------------------------------------------------

  datatype Entry = Entry(key: string, value: string)

  const MAX_ENTRIES := 32

  predicate KeyStart(c: char) { 'a' <= c <= 'z' || '0' <= c <= '9' }

  predicate KeyChar(c: char) { KeyStart(c) || c in {'_', '-', '*', '/', '@'} }

  /** The strict key grammar. */
  predicate StrictKey(key: string) {
    1 <= |key| <= 256 && KeyStart(key[0]) && forall c | c in key :: KeyChar(c)
  }

  /** A key kept although it is not strict. */
  predicate LenientKey(key: string) {
    forall c | c in key :: !Space(c) && c != '=' && c != ','
  }

  /** One list member: dropped when it is blank, has no key, no value, or a malformed key. */
  function ParseMember(member: string): Option<Entry> {
    var trimmed := Trim(member);
    var eq := Find(trimmed, '=', 0);
    if eq == 0 || eq == |trimmed| then None
    else
      var key, value := Trim(trimmed[..eq]), Trim(trimmed[eq + 1..]);
      if key == "" || value == "" || (!StrictKey(key) && !LenientKey(key)) then None
      else Some(Entry(key, value))
  }

  /** The entries of the well-formed members, in order. */
  function Entries(members: seq<string>): seq<Entry> {
    if members == [] then []
    else Kept(members[0]) + Entries(members[1..])
  }

  function Kept(member: string): seq<Entry> {
    if ParseMember(member).Some? then [ParseMember(member).value] else []
  }

  function FirstOf(entries: seq<Entry>, n: nat): seq<Entry> {
    if |entries| <= n then entries else entries[..n]
  }

  function Parsed(raw: string): seq<Entry> { FirstOf(Entries(Split(raw, ',')), MAX_ENTRIES) }

  /** `entries` are those of the first i members. */
  ghost predicate ParsedSoFar(all: seq<Entry>, entries: seq<Entry>, members: seq<string>, i: nat) {
    i <= |members| && all == entries + Entries(members[i..])
  }

  lemma FirstStay(all: seq<Entry>, entries: seq<Entry>, rest: seq<Entry>)
    requires all == entries + rest && |entries| >= MAX_ENTRIES
    ensures FirstOf(all, MAX_ENTRIES) == entries[..MAX_ENTRIES]
  {
  }

  lemma OneMember(all: seq<Entry>, entries: seq<Entry>, members: seq<string>, i: nat)
    requires i < |members| && ParsedSoFar(all, entries, members, i)
    ensures ParsedSoFar(all, entries + Kept(members[i]), members, i + 1)
    ensures |entries + Kept(members[i])| >= MAX_ENTRIES ==> FirstOf(all, MAX_ENTRIES) == (entries + Kept(members[i]))[..MAX_ENTRIES]
  {
    assert members[i..][1..] == members[i + 1..];
    var rest := Entries(members[i + 1..]);
    assert all == (entries + Kept(members[i])) + rest;
    if |entries + Kept(members[i])| >= MAX_ENTRIES { FirstStay(all, entries + Kept(members[i]), rest); }
  }

  /** The loop body's tests on one member; each failure drops it. */
  method TakeMember(member: string) returns (entry: Option<Entry>)
    ensures entry == ParseMember(member)
  {
    var trimmed := Trim(member);
    if |trimmed| == 0 { return None; }
    var eq := Find(trimmed, '=', 0);
    if eq == 0 || eq == |trimmed| { return None; }
    var key := Trim(trimmed[..eq]);
    var value := Trim(trimmed[eq + 1..]);
    if |key| == 0 || |value| == 0 { return None; }
    if !StrictKey(key) && !LenientKey(key) { return None; }
    return Some(Entry(key, value));
  }

  method ParseTracestate(raw: string) returns (entries: seq<Entry>)
    ensures entries == Parsed(raw)
  {
    if |raw| == 0 {
      assert Split(raw, ',') == [raw] && Entries([raw]) == [];
      return [];
    }
    entries := [];
    var members := Split(raw, ',');
    ghost var all := Entries(members);
    assert members[0..] == members;
    for i := 0 to |members|
      invariant ParsedSoFar(all, entries, members, i) && |entries| < MAX_ENTRIES
    {
      OneMember(all, entries, members, i);
      var entry := TakeMember(members[i]);
      if entry.None? {
        assert entries + [] == entries;
        continue;
      }
      entries := entries + [entry.value];
      if |entries| >= MAX_ENTRIES {
        assert entries[..MAX_ENTRIES] == entries;
        return;
      }
    }
    assert entries == all;
  }

  function Member(e: Entry): string { e.key + ['='] + e.value }

  function Members(entries: seq<Entry>): seq<string> {
    seq(|entries|, i requires 0 <= i < |entries| => Member(entries[i]))
  }

  function FormatTracestate(entries: seq<Entry>): string { Join(Members(entries), ',') }

  /** An entry as the parser produces it. */
  predicate Normal(e: Entry) {
    e.key != "" && (forall c | c in e.key :: !Space(c) && c != '=' && c != ',') &&
    e.value != "" && Trimmed(e.value) && ',' !in e.value
  }

  predicate NormalList(entries: seq<Entry>) {
    |entries| <= MAX_ENTRIES && forall e | e in entries :: Normal(e)
  }

  lemma ParsedMemberIsNormal(member: string)
    requires ',' !in member && ParseMember(member).Some?
    ensures Normal(ParseMember(member).value)
  {
    var trimmed := Trim(member);
    TrimIsTrimmed(member);
    var eq := Find(trimmed, '=', 0);
    var key, value := trimmed[..eq], trimmed[eq + 1..];
    TrimIsTrimmed(key);
    TrimIsTrimmed(value);
    assert forall c | c in key :: c in trimmed && c != '=';
    assert forall c | c in value :: c in trimmed;
  }

  lemma {:induction false} EntriesAreNormal(members: seq<string>)
    requires forall m | m in members :: ',' !in m
    ensures forall e | e in Entries(members) :: Normal(e)
  {
    if members != [] {
      assert members[0] in members;
      EntriesAreNormal(members[1..]);
      if ParseMember(members[0]).Some? { ParsedMemberIsNormal(members[0]); }
    }
  }

  /** Whatever the header, the parsed list is in normal form. */
  lemma ParsedIsNormal(raw: string)
    ensures NormalList(Parsed(raw))
  {
    EntriesAreNormal(Split(raw, ','));
  }

  lemma MemberReadsBack(e: Entry)
    requires Normal(e)
    ensures ParseMember(Member(e)) == Some(e)
  {
    var m := Member(e);
    assert m[|e.key|] == '=' && m[..|e.key|] == e.key && m[|e.key| + 1..] == e.value;
    assert e.key[0] in e.key && m[0] == e.key[0] && m[|m| - 1] == e.value[|e.value| - 1];
    TrimIsTrimmed(m);
    assert forall j | 0 <= j < |e.key| :: m[j] == e.key[j] && e.key[j] in e.key;
    assert Find(m, '=', 0) == |e.key|;
    assert e.key[|e.key| - 1] in e.key;
    TrimIsTrimmed(e.key);
    TrimIsTrimmed(e.value);
  }

  lemma {:induction false} MembersReadBack(entries: seq<Entry>)
    requires forall e | e in entries :: Normal(e)
    ensures Entries(Members(entries)) == entries
  {
    if entries != [] {
      assert entries[0] in entries;
      MemberReadsBack(entries[0]);
      assert Members(entries)[1..] == Members(entries[1..]);
      MembersReadBack(entries[1..]);
    }
  }

  lemma NormalListReadsBack(entries: seq<Entry>)
    requires NormalList(entries) && entries != []
    ensures Parsed(FormatTracestate(entries)) == entries
  {
    forall m | m in Members(entries) ensures ',' !in m {
      var i :| 0 <= i < |entries| && m == Member(entries[i]);
      assert Normal(entries[i]);
    }
    SplitOfJoin(Members(entries), ',');
    MembersReadBack(entries);
  }

  lemma EmptyListReadsBack()
    ensures Parsed(FormatTracestate([])) == []
  {
    assert Split("", ',') == [""];
    assert ParseMember("") == None;
  }

  /** A list survives printing and parsing exactly when it is in normal form. */
  lemma PrintedListReadsBackExactly(entries: seq<Entry>)
    ensures Parsed(FormatTracestate(entries)) == entries <==> NormalList(entries)
  {
    ParsedIsNormal(FormatTracestate(entries));
    if entries == [] { EmptyListReadsBack(); } else if NormalList(entries) { NormalListReadsBack(entries); }
  }

  /** Parsing, printing and parsing again is parsing once, for every header value. */
  lemma ParseIsStable(raw: string)
    ensures Parsed(FormatTracestate(Parsed(raw))) == Parsed(raw)
  {
    ParsedIsNormal(raw);
    PrintedListReadsBackExactly(Parsed(raw));
  }

  // ---------------------------------------------------------------------
  // traceparent
  // ---------------------------------------------------------------------

  datatype TraceParent = TraceParent(version: string, traceId: string, parentId: string, flags: string, state: seq<Entry>)

  predicate Hex(s: string, n: nat) {
    |s| == n && forall c | c in s :: '0' <= c <= '9' || 'a' <= c <= 'f'
  }

  predicate AllZero(s: string) { forall c | c in s :: c == '0' }

  /** Two, thirty-two, sixteen and two hexadecimal digits, joined by dashes. */
  function MatchTraceparent(s: string): Option<TraceParent> {
    if |s| == 55 && s[2] == '-' && s[35] == '-' && s[52] == '-' &&
       Hex(s[..2], 2) && Hex(s[3..35], 32) && Hex(s[36..52], 16) && Hex(s[53..], 2)
    then Some(TraceParent(s[..2], s[3..35], s[36..52], s[53..], []))
    else None
  }

  type Headers = seq<(string, string)>

  /** The first header of that name, whatever its case. */
  function Lookup(headers: Headers, name: string): Option<string> {
    if headers == [] then None
    else if Lower(headers[0].0) == Lower(name) then Some(headers[0].1)
    else Lookup(headers[1..], name)
  }

  method LookupHeaderCi(headers: Headers, name: string) returns (r: Option<string>)
    ensures r == Lookup(headers, name)
  {
    var target := Lower(name);
    for i := 0 to |headers|
      invariant Lookup(headers, name) == Lookup(headers[i..], name)
    {
      assert headers[i..][1..] == headers[i + 1..];
      if Lower(headers[i].0) == target { return Some(headers[i].1); }
    }
    return None;
  }

  function Extracted(headers: Headers): Option<TraceParent> {
    var raw := Lookup(headers, "traceparent");
    if raw.None? then None
    else
      var parts := MatchTraceparent(Lower(Trim(raw.value)));
      if parts.None? || parts.value.version == "ff" || AllZero(parts.value.traceId) || AllZero(parts.value.parentId) then None
      else
        var state := Lookup(headers, "tracestate");
        Some(parts.value.(state := if state.Some? then Parsed(state.value) else []))
  }

  method Extract(headers: Headers) returns (r: Option<TraceParent>)
    ensures r == Extracted(headers)
  {
    var raw := LookupHeaderCi(headers, "traceparent");
    if raw.None? { return None; }
    var parts := MatchTraceparent(Lower(Trim(raw.value)));
    if parts.None? { return None; }
    if parts.value.version == "ff" { return None; }
    if AllZero(parts.value.traceId) || AllZero(parts.value.parentId) { return None; }
    var stateRaw := LookupHeaderCi(headers, "tracestate");
    var state: seq<Entry> := [];
    if stateRaw.Some? { state := ParseTracestate(stateRaw.value); }
    return Some(parts.value.(state := state));
  }

  /** What `inject` reads of the call context; `drawn` is the random id it would draw. */
  datatype Context = Context(
    traceId: string,
    spans: seq<string>,
    drawn: string,
    flags: Option<string>,
    state: Option<seq<Entry>>,
    inbound: Option<TraceParent>)

  function ParentOf(c: Context, explicit: Option<string>): string {
    if explicit.Some? then explicit.value else if c.spans != [] then c.spans[|c.spans| - 1] else c.drawn
  }

  function FlagsOf(c: Context): string {
    if c.flags.Some? then c.flags.value else if c.inbound.Some? then c.inbound.value.flags else "01"
  }

  function StateOf(c: Context): seq<Entry> {
    if c.state.Some? then c.state.value else if c.inbound.Some? then c.inbound.value.state else []
  }

  /** Fails when an explicit parent id is malformed. */
  function Inject(c: Context, explicit: Option<string>): Result<Headers, string> {
    if explicit.Some? && !Hex(explicit.value, 16) then Err(explicit.value)
    else
      var parent := ("traceparent", "00-" + c.traceId + "-" + ParentOf(c, explicit) + "-" + FlagsOf(c));
      Ok(if StateOf(c) == [] then [parent] else [parent, ("tracestate", FormatTracestate(StateOf(c)))])
  }

  /** Ids and flags that the header format can carry. */
  predicate Carried(traceId: string, parentId: string, flags: string) {
    Hex(traceId, 32) && !AllZero(traceId) && Hex(parentId, 16) && !AllZero(parentId) && Hex(flags, 2)
  }

  lemma LowerOfHex(s: string)
    requires forall c | c in s :: c == '-' || '0' <= c <= '9' || 'a' <= c <= 'f'
    ensures Lower(s) == s && Trimmed(s)
  {
    assert forall i | 0 <= i < |s| :: s[i] in s;
  }

  lemma WellFormedMatches(t: string, p: string, f: string)
    requires Hex(t, 32) && Hex(p, 16) && Hex(f, 2)
    ensures var s := "00-" + t + "-" + p + "-" + f;
            Lower(Trim(s)) == s && MatchTraceparent(s) == Some(TraceParent("00", t, p, f, []))
  {
    var s := "00-" + t + "-" + p + "-" + f;
    assert |s| == 55 && s[..2] == "00" && s[3..35] == t && s[36..52] == p && s[53..] == f;
    LowerOfHex(s);
    TrimIsTrimmed(s);
  }

  lemma NamesDiffer()
    ensures Lower("traceparent") != Lower("tracestate")
  {
    assert Lower("traceparent")[5] == 'p' && Lower("tracestate")[5] == 's';
  }

  /**
   * The receiver recovers ids, flags and state list exactly when the ids and flags are
   * well formed and the ids non-zero, and the state list is in normal form.
   */
  lemma ExtractOfInjectExactly(c: Context, explicit: Option<string>)
    requires Inject(c, explicit).Ok?
    ensures var sent := TraceParent("00", c.traceId, ParentOf(c, explicit), FlagsOf(c), StateOf(c));
            Extracted(Inject(c, explicit).value) == Some(sent) <==>
            Carried(sent.traceId, sent.parentId, sent.flags) && NormalList(sent.state)
  {
    var headers := Inject(c, explicit).value;
    var t, p, f, state := c.traceId, ParentOf(c, explicit), FlagsOf(c), StateOf(c);
    NamesDiffer();
    assert Lookup(headers, "traceparent") == Some(headers[0].1);
    assert Lookup(headers, "tracestate") == (if state == [] then None else Some(FormatTracestate(state))) by {
      assert headers[1..] == [] || headers[1..] == [("tracestate", FormatTracestate(state))];
    }
    PrintedListReadsBackExactly(state);
    if Hex(t, 32) && Hex(p, 16) && Hex(f, 2) { WellFormedMatches(t, p, f); }
  }
}
