/**
 * The provider configuration string accepted by ep_enable_2
 * (src/native/eventpipe/ep.c): a comma-separated list of providers, each
 * written Name[:Keywords[:Level[:Arguments]]], with keywords in hexadecimal
 * and the level in decimal.
 *
 * The first half states what the string means, by splitting it into segments
 * and fields; the second half is the cursor-based scanner of ep.c, proved to
 * compute that meaning.
 */
module EpConfig {
  import opened EpTypes

  // ---------------------------------------------------------------------------
  // Splitting the string.
  // ---------------------------------------------------------------------------

  /** The position of the first `c` in `s`, or |s| when there is none. */
  function IndexOf(s: string, c: char): (i: nat)
    ensures i <= |s|
    ensures i < |s| ==> s[i] == c
    ensures forall j :: 0 <= j < i ==> s[j] != c
  {
    if s == [] || s[0] == c then 0 else 1 + IndexOf(s[1..], c)
  }

  /** The fields of one provider entry: its text cut at every ':'. */
  function Fields(entry: string): (fields: seq<string>)
    ensures |fields| >= 1
    decreases |entry|
  {
    var i := IndexOf(entry, ':');
    if i == |entry| then [entry] else [entry[..i]] + Fields(entry[i + 1..])
  }

  /** One comma-separated entry, and whether it ends the string rather than a ','. */
  datatype ConfigSegment = ConfigSegment(text: string, last: bool)

  /** The text of the entry that starts `rest`. */
  function Segment(rest: string): string {
    rest[..IndexOf(rest, ',')]
  }

  /** Whether the entry that starts `rest` runs to the end of the string. */
  predicate LastSegment(rest: string) {
    IndexOf(rest, ',') == |rest|
  }

  /** The entries of a configuration string; a trailing ',' opens no entry. */
  function Segments(config: string): seq<ConfigSegment>
    decreases |config|
  {
    if config == [] then []
    else
      var i := IndexOf(config, ',');
      [ConfigSegment(config[..i], i == |config|)] + (if i == |config| then [] else Segments(config[i + 1..]))
  }

  // ---------------------------------------------------------------------------
  // Reading numbers (the strtoull / strtoul conversions).
  // ---------------------------------------------------------------------------

  function DigitValue(c: char): Option<nat> {
    if '0' <= c <= '9' then Some(c as nat - '0' as nat)
    else if 'a' <= c <= 'f' then Some(c as nat - 'a' as nat + 10)
    else if 'A' <= c <= 'F' then Some(c as nat - 'A' as nat + 10)
    else None
  }

  predicate IsDigit(c: char, base: nat) {
    DigitValue(c).Some? && DigitValue(c).value < base
  }

  function Min(a: int, b: int): int {
    if a <= b then a else b
  }

  /**
   * Reads the digits that begin `text` onto `acc`, stopping at the first
   * character that is not a digit in `base`; past UINT64_MAX the value sticks
   * at UINT64_MAX, as strtoull reports an overflow.
   */
  function Accumulate(text: string, base: nat, acc: uint64): uint64
    requires 2 <= base <= 16
    decreases |text|
  {
    if text == [] || !IsDigit(text[0], base) then acc
    else Accumulate(text[1..], base, Min(acc * base + DigitValue(text[0]).value, UINT64_MAX))
  }

  /** strtoull(text, NULL, 16): an optional 0x or 0X prefix, then hexadecimal digits. */
  function ParseHex(text: string): uint64 {
    if |text| >= 3 && text[0] == '0' && (text[1] == 'x' || text[1] == 'X') && IsDigit(text[2], 16)
    then Accumulate(text[2..], 16, 0)
    else Accumulate(text, 16, 0)
  }

  /** (uint32_t)strtoul(text, NULL, 10) with a 64-bit unsigned long: decimal digits, then truncated. */
  function ParseDecimal32(text: string): uint32 {
    Accumulate(text, 10, 0) % 0x1_0000_0000
  }

  // ---------------------------------------------------------------------------
  // The meaning of an entry.
  // ---------------------------------------------------------------------------

  /**
   * Whether the scanner reads field k of an entry with fields `fields`: the
   * field exists, and it is not an empty final field that a ',' closes (the
   * cursor then rests on that ','). An empty field that is read yields the
   * reader's "absent" value.
   */
  predicate FieldRead(fields: seq<string>, k: nat, last: bool) {
    k < |fields| && !(fields[k] == "" && k + 1 == |fields| && !last)
  }

  function KeywordsValue(text: string): uint64 {
    if text == "" then UINT64_MAX else ParseHex(text)
  }

  function LevelValue(text: string): uint32 {
    if text == "" then UINT32_MAX else ParseDecimal32(text)
  }

  function ArgumentsValue(text: string): Option<string> {
    if text == "" then None else Some(text)
  }

  /**
   * The provider an entry configures: its name is the first field, which must
   * not be empty; keywords default to 0, the level to verbose and the
   * arguments to none.
   */
  function EntryConfig(seg: ConfigSegment): Option<ProviderConfig> {
    var fields := Fields(seg.text);
    if fields[0] == "" then None
    else Some(ProviderConfig(
      fields[0],
      if FieldRead(fields, 1, seg.last) then KeywordsValue(fields[1]) else 0,
      if FieldRead(fields, 2, seg.last) then LevelValue(fields[2]) else LevelVerbose,
      if FieldRead(fields, 3, seg.last) then ArgumentsValue(fields[3]) else None))
  }

  /** The providers of a list of entries, or None when one of them has no name. */
  function EntriesConfig(segs: seq<ConfigSegment>): Option<seq<ProviderConfig>> {
    if segs == [] then Some([])
    else match (EntryConfig(segs[0]), EntriesConfig(segs[1..])) {
      case (Some(p), Some(ps)) => Some([p] + ps)
      case _ => None
    }
  }

  /** The three providers a session gets when no configuration string is given. */
  function DefaultProviders(): seq<ProviderConfig> {
    [ ProviderConfig(PublicProviderName, 0x4c14fccbd, LevelVerbose, None),
      ProviderConfig(PrivateProviderName, 0x4002000b, LevelVerbose, None),
      ProviderConfig(SampleProfilerProviderName, 0x0, LevelVerbose, None) ]
  }

  /** The providers a configuration string (NULL is None) enables, or None when it is rejected. */
  function ProvidersFromConfig(config: Option<string>): Option<seq<ProviderConfig>> {
    if config.None? || config.value == "" then Some(DefaultProviders())
    else EntriesConfig(Segments(config.value))
  }

  // ---------------------------------------------------------------------------
  // Properties of the meaning.
  // ---------------------------------------------------------------------------

  function CountChar(s: string, c: char): nat {
    if s == [] then 0 else (if s[0] == c then 1 else 0) + CountChar(s[1..], c)
  }

  /**
   * The number of providers the string lists: one per ',', plus one unless
   * the string ends with ','.
   */
  lemma {:induction false} SegmentCount(config: string)
    ensures |Segments(config)| == CountChar(config, ',') + (if config != [] && config[|config| - 1] != ',' then 1 else 0)
    decreases |config|
  {
    if config != [] {
      var i := IndexOf(config, ',');
      CountBeforeComma(config, i);
      if i < |config| {
        SegmentCount(config[i + 1..]);
        if i + 1 < |config| {
          assert config[i + 1..][|config[i + 1..]| - 1] == config[|config| - 1];
        }
      }
    }
  }

  /** Cutting the string at its first ',' leaves the count of ',' to the part after it. */
  lemma {:induction false} CountBeforeComma(s: string, i: nat)
    requires i == IndexOf(s, ',')
    ensures i < |s| ==> CountChar(s, ',') == 1 + CountChar(s[i + 1..], ',')
    ensures i == |s| ==> CountChar(s, ',') == 0
    decreases |s|
  {
    if s != [] && s[0] != ',' {
      assert IndexOf(s[1..], ',') == i - 1;
      CountBeforeComma(s[1..], i - 1);
      if i < |s| {
        assert s[1..][i..] == s[i + 1..];
      }
    }
  }

  /**
   * A list of entries is accepted exactly when every entry names its provider;
   * it then yields one provider per entry, in order.
   */
  lemma {:induction false} EntriesConfigSpec(segs: seq<ConfigSegment>)
    ensures EntriesConfig(segs).Some? <==> forall i :: 0 <= i < |segs| ==> EntryConfig(segs[i]).Some?
    ensures EntriesConfig(segs).Some? ==>
      |EntriesConfig(segs).value| == |segs| &&
      forall i :: 0 <= i < |segs| ==> EntriesConfig(segs).value[i] == EntryConfig(segs[i]).value
  {
    if segs != [] {
      EntriesConfigSpec(segs[1..]);
      if EntriesConfig(segs).Some? {
        var ps := EntriesConfig(segs).value;
        forall i | 0 <= i < |segs|
          ensures EntryConfig(segs[i]).Some? && ps[i] == EntryConfig(segs[i]).value
        {
          if i > 0 {
            assert segs[i] == segs[1..][i - 1];
          }
        }
      } else if EntryConfig(segs[0]).Some? {
        var j :| 0 <= j < |segs[1..]| && EntryConfig(segs[1..][j]).None?;
        assert EntryConfig(segs[j + 1]).None?;
      }
    }
  }

  /** Every provider an accepted string yields has a non-empty name. */
  lemma ProviderNamesNonEmpty(config: Option<string>)
    ensures ProvidersFromConfig(config).Some? ==>
      forall i :: 0 <= i < |ProvidersFromConfig(config).value| ==> ProvidersFromConfig(config).value[i].name != ""
  {
    if config.Some? && config.value != "" {
      EntriesConfigSpec(Segments(config.value));
    }
  }

  /** An entry with an empty name, anywhere in the string, rejects the whole string. */
  lemma EmptyNameRejects(config: string, k: nat)
    requires k < |Segments(config)| && Fields(Segments(config)[k].text)[0] == ""
    ensures ProvidersFromConfig(Some(config)).None?
  {
    EntriesConfigSpec(Segments(config));
  }

  // ---------------------------------------------------------------------------
  // The scanner.
  // ---------------------------------------------------------------------------

  predicate IsDelimiter(c: char) {
    c == ',' || c == ':'
  }

  /** The position just past the entry that starts at `pos`: its ',' or the end of the string. */
  function EntryEnd(s: string, pos: nat): (e: nat)
    requires pos <= |s|
    ensures pos <= e <= |s|
  {
    pos + IndexOf(s[pos..], ',')
  }

  /**
   * get_next_config_value: the value starting at `pos` runs to the first ',',
   * ':' or the end of the string. The cursor then moves past a ':', stays on a
   * ',' and becomes NULL (None) at the end of the string.
   */
  method GetNextConfigValue(s: string, pos: nat) returns (start: nat, end: nat, next: Option<nat>)
    requires pos <= |s|
    ensures start == pos <= end <= |s|
    ensures forall i :: pos <= i < end ==> !IsDelimiter(s[i])
    ensures end < |s| ==> IsDelimiter(s[end])
    ensures end == |s| ==> next == None
    ensures end < |s| && s[end] == ',' ==> next == Some(end)
    ensures end < |s| && s[end] == ':' ==> next == Some(end + 1)
  {
    start := pos;
    end := pos;
    while end < |s| && !IsDelimiter(s[end])
      invariant pos <= end <= |s|
      invariant forall i :: pos <= i < end ==> !IsDelimiter(s[i])
    {
      end := end + 1;
    }
    if end == |s| {
      next := None;
    } else if s[end] == ',' {
      next := Some(end);
    } else {
      next := Some(end + 1);
    }
  }

  /**
   * get_next_config_value_as_utf8_string: the value's text, or None (NULL)
   * when it is empty.
   */
  method GetNextConfigValueAsString(s: string, pos: nat) returns (value: Option<string>, next: Option<nat>, end: nat)
    requires pos <= |s|
    ensures pos <= end <= |s|
    ensures forall i :: pos <= i < end ==> !IsDelimiter(s[i])
    ensures end < |s| ==> IsDelimiter(s[end])
    ensures value == ArgumentsValue(s[pos..end])
    ensures end == |s| ==> next == None
    ensures end < |s| && s[end] == ',' ==> next == Some(end)
    ensures end < |s| && s[end] == ':' ==> next == Some(end + 1)
  {
    var start, stop;
    start, stop, next := GetNextConfigValue(s, pos);
    value := if stop - start != 0 then Some(s[start..stop]) else None;
    end := stop;
  }

  /** get_next_config_value_as_uint64_t: a hexadecimal value, UINT64_MAX when empty. */
  method GetNextConfigValueAsUint64(s: string, pos: nat) returns (value: uint64, next: Option<nat>, end: nat)
    requires pos <= |s|
    ensures pos <= end <= |s|
    ensures forall i :: pos <= i < end ==> !IsDelimiter(s[i])
    ensures end < |s| ==> IsDelimiter(s[end])
    ensures value == KeywordsValue(s[pos..end])
    ensures end == |s| ==> next == None
    ensures end < |s| && s[end] == ',' ==> next == Some(end)
    ensures end < |s| && s[end] == ':' ==> next == Some(end + 1)
  {
    var text;
    text, next, end := GetNextConfigValueAsString(s, pos);
    value := UINT64_MAX;
    if text.Some? {
      value := ParseHex(text.value);
    }
  }

  /** get_next_config_value_as_uint32_t: a decimal value, UINT32_MAX when empty. */
  method GetNextConfigValueAsUint32(s: string, pos: nat) returns (value: uint32, next: Option<nat>, end: nat)
    requires pos <= |s|
    ensures pos <= end <= |s|
    ensures forall i :: pos <= i < end ==> !IsDelimiter(s[i])
    ensures end < |s| ==> IsDelimiter(s[end])
    ensures value == LevelValue(s[pos..end])
    ensures end == |s| ==> next == None
    ensures end < |s| && s[end] == ',' ==> next == Some(end)
    ensures end < |s| && s[end] == ':' ==> next == Some(end + 1)
  {
    var text;
    text, next, end := GetNextConfigValueAsString(s, pos);
    value := UINT32_MAX;
    if text.Some? {
      value := ParseDecimal32(text.value);
    }
  }

  // ---------------------------------------------------------------------------
  // How the scanner's cursor relates to the fields of an entry.
  // ---------------------------------------------------------------------------

  lemma {:induction false} IndexOfIs(s: string, c: char, i: nat)
    requires i <= |s| && (i < |s| ==> s[i] == c) && forall j :: 0 <= j < i ==> s[j] != c
    ensures IndexOf(s, c) == i
    decreases |s|
  {
    if s != [] && s[0] != c {
      IndexOfIs(s[1..], c, i - 1);
    }
  }

  /**
   * The cursor `p` is at the start of field k of an entry whose fields are
   * `fields`, which is the last entry exactly when `last` and which ends at
   * `entryEnd`.
   */
  ghost predicate AtField(s: string, p: Option<nat>, fields: seq<string>, k: nat, last: bool, entryEnd: nat) {
    p.Some? && p.value <= |s| && k < |fields|
    && Fields(Segment(s[p.value..])) == fields[k..]
    && LastSegment(s[p.value..]) == last
    && EntryEnd(s, p.value) == entryEnd
  }

  /** The cursor has consumed every field of the entry: it rests on the entry's ',' or is NULL. */
  ghost predicate PastFields(s: string, p: Option<nat>, last: bool, entryEnd: nat) {
    (p.None? && last && entryEnd == |s|) ||
    (p.Some? && p.value == entryEnd < |s| && s[entryEnd] == ',' && !last)
  }

  /** The cursor stands before field k, or past the entry's fields when k is their number. */
  ghost predicate CursorAt(s: string, p: Option<nat>, fields: seq<string>, k: nat, last: bool, entryEnd: nat) {
    k <= |fields| &&
    if k < |fields| then AtField(s, p, fields, k, last, entryEnd) else PastFields(s, p, last, entryEnd)
  }

  /** The parse loop's test before reading a field: the cursor is not NULL and not on a ','. */
  predicate WillRead(s: string, p: Option<nat>) {
    p.Some? && p.value <= |s| && (p.value == |s| || s[p.value] != ',')
  }

  /**
   * The scanner reads field k exactly when FieldRead says so; when it does
   * not, it reads no later field either.
   */
  lemma ReadTest(s: string, p: Option<nat>, fields: seq<string>, k: nat, last: bool, entryEnd: nat)
    requires CursorAt(s, p, fields, k, last, entryEnd)
    ensures WillRead(s, p) <==> FieldRead(fields, k, last)
    ensures !WillRead(s, p) ==> forall j :: k <= j ==> !FieldRead(fields, j, last)
  {
    if k < |fields| {
      var q := p.value;
      var u := s[q..];
      var comma := IndexOf(u, ',');
      if q < |s| && s[q] == ',' {
        IndexOfIs(u, ',', 0);
        assert Segment(u) == "";
        assert Fields("") == [""];
        assert fields[k..] == [""];
        assert k + 1 == |fields|;
      }
    }
  }

  /** Cutting the rest of the string after a value ended by a ':'. */
  lemma ColonSplit(u: string, j: nat)
    requires j < |u| && u[j] == ':'
    requires forall i :: 0 <= i < j ==> !IsDelimiter(u[i])
    ensures j < IndexOf(u, ',')
    ensures IndexOf(u[j + 1..], ',') == IndexOf(u, ',') - j - 1
    ensures Fields(Segment(u)) == [u[..j]] + Fields(Segment(u[j + 1..]))
  {
    ColonBeforeComma(u, j);
    ColonFields(u, j);
    ColonRest(u, j);
  }

  lemma ColonBeforeComma(u: string, j: nat)
    requires j < |u| && u[j] == ':'
    requires forall i :: 0 <= i < j ==> !IsDelimiter(u[i])
    ensures j < IndexOf(u, ',')
  {
    assert forall i :: 0 <= i <= j ==> u[i] != ',';
  }

  lemma ColonFields(u: string, j: nat)
    requires j < IndexOf(u, ',') && u[j] == ':'
    requires forall i :: 0 <= i < j ==> !IsDelimiter(u[i])
    ensures Fields(Segment(u)) == [u[..j]] + Fields(Segment(u)[j + 1..])
  {
    var seg := u[..IndexOf(u, ',')];
    assert seg == Segment(u);
    assert forall i :: 0 <= i < j ==> seg[i] == u[i] && seg[i] != ':';
    IndexOfIs(seg, ':', j);
    FieldsSplit(seg, j);
    assert seg[..j] == u[..j];
  }

  lemma FieldsSplit(entry: string, j: nat)
    requires j < |entry| && IndexOf(entry, ':') == j
    ensures Fields(entry) == [entry[..j]] + Fields(entry[j + 1..])
  {
  }

  lemma ColonRest(u: string, j: nat)
    requires j < IndexOf(u, ',')
    ensures IndexOf(u[j + 1..], ',') == IndexOf(u, ',') - j - 1
    ensures Segment(u[j + 1..]) == Segment(u)[j + 1..]
  {
    IndexOfAfter(u, ',', j);
    var comma := IndexOf(u, ',');
    assert u[j + 1..][..comma - j - 1] == u[..comma][j + 1..];
  }

  /** Dropping a prefix that holds no `c` moves the first `c` back by the prefix's length. */
  lemma {:induction false} IndexOfAfter(u: string, c: char, j: nat)
    requires j < IndexOf(u, c)
    ensures IndexOf(u[j + 1..], c) == IndexOf(u, c) - j - 1
    decreases j
  {
    assert u[0] != c;
    assert IndexOf(u, c) == 1 + IndexOf(u[1..], c);
    if j > 0 {
      IndexOfAfter(u[1..], c, j - 1);
      assert u[1..][j..] == u[j + 1..];
    }
  }

  /** In terms of the whole string: the entry after the ':' keeps the remaining fields. */
  lemma ColonAdvance(s: string, q: nat, end: nat)
    requires q <= end < |s| && s[end] == ':'
    requires forall i :: q <= i < end ==> !IsDelimiter(s[i])
    ensures Fields(Segment(s[q..])) == [s[q..end]] + Fields(Segment(s[end + 1..]))
    ensures LastSegment(s[end + 1..]) == LastSegment(s[q..])
    ensures EntryEnd(s, end + 1) == EntryEnd(s, q)
  {
    var u := s[q..];
    var j := end - q;
    ColonSplit(u, j);
    assert u[j + 1..] == s[end + 1..];
    assert u[..j] == s[q..end];
  }

  /** A value ended by a ':' is field k; the cursor past the ':' stands at field k + 1. */
  lemma ReadStepColon(s: string, q: nat, end: nat, fields: seq<string>, k: nat, last: bool, entryEnd: nat)
    requires k < |fields| && AtField(s, Some(q), fields, k, last, entryEnd)
    requires q <= end < |s| && s[end] == ':'
    requires forall i :: q <= i < end ==> !IsDelimiter(s[i])
    ensures fields[k] == s[q..end]
    ensures k + 1 < |fields| && AtField(s, Some(end + 1), fields, k + 1, last, entryEnd)
  {
    ColonAdvance(s, q, end);
    assert fields[k..][0] == fields[k];
    assert fields[k..][1..] == fields[k + 1..];
  }

  /**
   * A value ended by a ',' or by the end of the string is the entry's last
   * field; the cursor then rests on that ',' or becomes NULL.
   */
  lemma ReadStepStop(s: string, q: nat, end: nat, fields: seq<string>, k: nat, last: bool, entryEnd: nat)
    requires k < |fields| && AtField(s, Some(q), fields, k, last, entryEnd)
    requires q <= end <= |s| && (end < |s| ==> s[end] == ',')
    requires forall i :: q <= i < end ==> !IsDelimiter(s[i])
    ensures fields[k] == s[q..end] && k + 1 == |fields|
    ensures end == |s| ==> last && entryEnd == |s|
    ensures end < |s| ==> !last && entryEnd == end
  {
    var u := s[q..];
    var j := end - q;
    assert forall i :: 0 <= i < j ==> u[i] == s[q + i];
    IndexOfIs(u, ',', j);
    var seg := Segment(u);
    assert seg == u[..j];
    IndexOfIs(seg, ':', j);
    assert Fields(seg) == [seg];
    assert seg == s[q..end];
  }

  /**
   * One read from a cursor at field k: the text read is that field, and the
   * cursor moves to field k + 1 or past the last field.
   */
  lemma ReadStep(s: string, q: nat, end: nat, next: Option<nat>, fields: seq<string>, k: nat, last: bool, entryEnd: nat)
    requires k < |fields| && AtField(s, Some(q), fields, k, last, entryEnd)
    requires q <= end <= |s|
    requires forall i :: q <= i < end ==> !IsDelimiter(s[i])
    requires end < |s| ==> IsDelimiter(s[end])
    requires end == |s| ==> next == None
    requires end < |s| && s[end] == ',' ==> next == Some(end)
    requires end < |s| && s[end] == ':' ==> next == Some(end + 1)
    ensures fields[k] == s[q..end]
    ensures CursorAt(s, next, fields, k + 1, last, entryEnd)
  {
    if end < |s| && s[end] == ':' {
      ReadStepColon(s, q, end, fields, k, last, entryEnd);
    } else {
      ReadStepStop(s, q, end, fields, k, last, entryEnd);
    }
  }

  /**
   * Where the cursor stands before the parse loop tests for field k: at that
   * field, or past the entry's fields with no later field to be read.
   */
  ghost predicate Before(s: string, p: Option<nat>, fields: seq<string>, k: nat, last: bool, entryEnd: nat) {
    CursorAt(s, p, fields, k, last, entryEnd) ||
    (PastFields(s, p, last, entryEnd) && forall j :: k <= j ==> !FieldRead(fields, j, last))
  }

  lemma BeforeTest(s: string, p: Option<nat>, fields: seq<string>, k: nat, last: bool, entryEnd: nat)
    requires Before(s, p, fields, k, last, entryEnd)
    ensures WillRead(s, p) <==> FieldRead(fields, k, last)
    ensures !WillRead(s, p) ==> Before(s, p, fields, k + 1, last, entryEnd)
  {
    if CursorAt(s, p, fields, k, last, entryEnd) {
      ReadTest(s, p, fields, k, last, entryEnd);
      if !WillRead(s, p) && k < |fields| {
        var q := p.value;
        IndexOfIs(s[q..], ',', 0);
      }
    }
  }

  /** The keywords field, read while the cursor is neither NULL nor on a ','; 0 otherwise. */
  method ReadKeywords(s: string, p: Option<nat>, ghost fields: seq<string>, ghost last: bool, ghost entryEnd: nat)
    returns (keywords: uint64, next: Option<nat>)
    requires Before(s, p, fields, 1, last, entryEnd)
    ensures keywords == if FieldRead(fields, 1, last) then KeywordsValue(fields[1]) else 0
    ensures Before(s, next, fields, 2, last, entryEnd)
    ensures next.Some? ==> p.Some? && p.value <= next.value
  {
    BeforeTest(s, p, fields, 1, last, entryEnd);
    keywords, next := 0, p;
    if WillRead(s, p) {
      var q := p.value;
      ghost var end;
      keywords, next, end := GetNextConfigValueAsUint64(s, q);
      ReadStep(s, q, end, next, fields, 1, last, entryEnd);
    }
  }

  /** The level field, read while the cursor is neither NULL nor on a ','; verbose otherwise. */
  method ReadLevel(s: string, p: Option<nat>, ghost fields: seq<string>, ghost last: bool, ghost entryEnd: nat)
    returns (level: uint32, next: Option<nat>)
    requires Before(s, p, fields, 2, last, entryEnd)
    ensures level == if FieldRead(fields, 2, last) then LevelValue(fields[2]) else LevelVerbose
    ensures Before(s, next, fields, 3, last, entryEnd)
    ensures next.Some? ==> p.Some? && p.value <= next.value
  {
    BeforeTest(s, p, fields, 2, last, entryEnd);
    level, next := LevelVerbose, p;
    if WillRead(s, p) {
      var q := p.value;
      ghost var end;
      level, next, end := GetNextConfigValueAsUint32(s, q);
      ReadStep(s, q, end, next, fields, 2, last, entryEnd);
    }
  }

  /** The arguments field, read while the cursor is neither NULL nor on a ','; none otherwise. */
  method ReadArguments(s: string, p: Option<nat>, ghost fields: seq<string>, ghost last: bool, ghost entryEnd: nat)
    returns (arguments: Option<string>, next: Option<nat>)
    requires Before(s, p, fields, 3, last, entryEnd)
    ensures arguments == if FieldRead(fields, 3, last) then ArgumentsValue(fields[3]) else None
    ensures next.Some? ==> p.Some? && p.value <= next.value <= entryEnd
    ensures next.None? ==> last
  {
    BeforeTest(s, p, fields, 3, last, entryEnd);
    arguments, next := None, p;
    if WillRead(s, p) {
      var q := p.value;
      ghost var end;
      arguments, next, end := GetNextConfigValueAsString(s, q);
      ReadStep(s, q, end, next, fields, 3, last, entryEnd);
    }
  }

  /**
   * The body of ep_enable_2's parse loop for the entry starting at `cur`:
   * reads the name, then the keywords, level and arguments fields while the
   * cursor is neither NULL nor on a ','. An entry without a name is rejected.
   */
  method ParseEntry(s: string, cur: nat) returns (provider: Option<ProviderConfig>, cursor: Option<nat>)
    requires cur < |s|
    ensures provider == EntryConfig(ConfigSegment(Segment(s[cur..]), LastSegment(s[cur..])))
    ensures provider.Some? && cursor.Some? ==> cur <= cursor.value <= EntryEnd(s, cur)
    ensures provider.Some? && cursor.None? ==> LastSegment(s[cur..])
  {
    ghost var fields := Fields(Segment(s[cur..]));
    ghost var last := LastSegment(s[cur..]);
    ghost var entryEnd := EntryEnd(s, cur);
    assert CursorAt(s, Some(cur), fields, 0, last, entryEnd);
    ReadTest(s, Some(cur), fields, 0, last, entryEnd);
    if s[cur] == ',' {
      // An empty entry names no provider.
      return None, Some(cur);
    }
    var name, p, end := GetNextConfigValueAsString(s, cur);
    ReadStep(s, cur, end, p, fields, 0, last, entryEnd);
    if name.None? {
      return None, p;
    }
    var keywords, level, arguments;
    keywords, p := ReadKeywords(s, p, fields, last, entryEnd);
    level, p := ReadLevel(s, p, fields, last, entryEnd);
    arguments, p := ReadArguments(s, p, fields, last, entryEnd);
    provider := Some(ProviderConfig(name.value, keywords, level, arguments));
    cursor := p;
  }

  // ---------------------------------------------------------------------------
  // The loops of ep_enable_2.
  // ---------------------------------------------------------------------------

  /** The entry starting at `cur` comes first among the entries of the rest of the string. */
  lemma SegmentsStep(s: string, cur: nat)
    requires cur < |s|
    ensures Segments(s[cur..]) ==
      [ConfigSegment(Segment(s[cur..]), LastSegment(s[cur..]))] +
      (if LastSegment(s[cur..]) then [] else Segments(s[EntryEnd(s, cur) + 1..]))
  {
    var u := s[cur..];
    SegmentsUnfold(u);
    if !LastSegment(u) {
      assert u[IndexOf(u, ',') + 1..] == s[EntryEnd(s, cur) + 1..];
    }
  }

  lemma SegmentsUnfold(u: string)
    requires u != []
    ensures var i := IndexOf(u, ',');
      Segments(u) == [ConfigSegment(u[..i], i == |u|)] + (if i == |u| then [] else Segments(u[i + 1..]))
  {
  }

  /** Where the entries after the one at `cur` start: past its ',', or at the end of the string. */
  function NextEntry(s: string, cur: nat): (next: nat)
    requires cur < |s|
    ensures cur < next <= |s|
  {
    if EntryEnd(s, cur) < |s| then EntryEnd(s, cur) + 1 else |s|
  }

  /**
   * Moves the cursor from inside the entry that starts at `start` to the start
   * of the next entry: past the entry's ',' or to the end of the string.
   */
  method SkipToNextEntry(s: string, pos: nat, ghost start: nat) returns (next: nat)
    requires start < |s| && start <= pos <= EntryEnd(s, start)
    ensures next == NextEntry(s, start)
  {
    next := pos;
    while next < |s| && s[next] != ','
      invariant pos <= next <= EntryEnd(s, start)
    {
      next := next + 1;
    }
    if next < |s| {
      next := next + 1;
    }
  }

  /** The counting loop: one provider per entry. */
  method CountProviders(s: string) returns (count: nat)
    ensures count == |Segments(s)|
  {
    count := 0;
    var cur: nat := 0;
    while cur < |s|
      invariant cur <= |s|
      invariant count + |Segments(s[cur..])| == |Segments(s)|
      decreases |s| - cur
    {
      SegmentsStep(s, cur);
      count := count + 1;
      cur := SkipToNextEntry(s, cur, cur);
    }
  }

  function Prepend(done: seq<ProviderConfig>, rest: Option<seq<ProviderConfig>>): Option<seq<ProviderConfig>> {
    if rest.None? then None else Some(done + rest.value)
  }

  lemma PrependNothing(rest: Option<seq<ProviderConfig>>)
    ensures Prepend([], rest) == rest
  {
    if rest.Some? {
      assert [] + rest.value == rest.value;
    }
  }

  /** The entries after the one that starts at `cur`. */
  function RestSegments(s: string, cur: nat): seq<ConfigSegment>
    requires cur < |s|
  {
    if LastSegment(s[cur..]) then [] else Segments(s[EntryEnd(s, cur) + 1..])
  }

  /** The meaning of the rest of the string, one entry at a time. */
  lemma EntriesStep(s: string, cur: nat)
    requires cur < |s|
    ensures |Segments(s[cur..])| == 1 + |RestSegments(s, cur)|
    ensures var e := EntryConfig(ConfigSegment(Segment(s[cur..]), LastSegment(s[cur..])));
      EntriesConfig(Segments(s[cur..])) ==
        if e.None? then None else Prepend([e.value], EntriesConfig(RestSegments(s, cur)))
  {
    SegmentsStep(s, cur);
    assert Segments(s[cur..])[1..] == RestSegments(s, cur);
  }

  lemma PrependAppend(done: seq<ProviderConfig>, p: ProviderConfig, rest: Option<seq<ProviderConfig>>)
    ensures Prepend(done, Prepend([p], rest)) == Prepend(done + [p], rest)
  {
    if rest.Some? {
      assert done + ([p] + rest.value) == (done + [p]) + rest.value;
    }
  }

  lemma PrependEnd(done: seq<ProviderConfig>)
    ensures Prepend(done, EntriesConfig(Segments([]))) == Some(done)
  {
    assert done + [] == done;
  }

  lemma NextEntrySegments(s: string, cur: nat)
    requires cur < |s|
    ensures RestSegments(s, cur) == Segments(s[NextEntry(s, cur)..])
  {
    if LastSegment(s[cur..]) {
      assert s[|s|..] == [];
    }
  }

  /**
   * One pass of the parse loop, in terms of the meaning: an entry without a
   * name rejects the string; otherwise the provider joins those parsed so far.
   */
  lemma ParseStep(s: string, cur: nat, parsed: seq<ProviderConfig>, provider: Option<ProviderConfig>)
    requires cur < |s|
    requires EntriesConfig(Segments(s)) == Prepend(parsed, EntriesConfig(Segments(s[cur..])))
    requires provider == EntryConfig(ConfigSegment(Segment(s[cur..]), LastSegment(s[cur..])))
    ensures |Segments(s[cur..])| == 1 + |Segments(s[NextEntry(s, cur)..])|
    ensures provider.None? ==> EntriesConfig(Segments(s)) == None
    ensures provider.Some? ==>
      EntriesConfig(Segments(s)) == Prepend(parsed + [provider.value], EntriesConfig(Segments(s[NextEntry(s, cur)..])))
  {
    EntriesStep(s, cur);
    NextEntrySegments(s, cur);
    if provider.Some? {
      PrependAppend(parsed, provider.value, EntriesConfig(RestSegments(s, cur)));
    }
  }

  /**
   * ep_enable_2's handling of the configuration string: the default providers
   * for a NULL or empty string, otherwise one provider per entry read by the
   * parse loop, into an array sized by the counting loop.
   */
  method ParseProviderConfig(config: Option<string>) returns (providers: Option<seq<ProviderConfig>>)
    ensures providers == ProvidersFromConfig(config)
  {
    if config.None? || config.value == "" {
      return Some(DefaultProviders());
    }
    var s := config.value;
    var count := CountProviders(s);
    var parsed: seq<ProviderConfig> := [];
    var cur: nat := 0;
    assert s[cur..] == s;
    PrependNothing(EntriesConfig(Segments(s)));
    while cur < |s|
      invariant cur <= |s|
      invariant EntriesConfig(Segments(s)) == Prepend(parsed, EntriesConfig(Segments(s[cur..])))
      invariant |parsed| + |Segments(s[cur..])| == count
      decreases |s| - cur
    {
      var provider, cursor := ParseEntry(s, cur);
      ParseStep(s, cur, parsed, provider);
      if provider.None? {
        return None;
      }
      // The array sized by the counting loop has room for this entry.
      assert |parsed| < count;
      parsed := parsed + [provider.value];
      if cursor.None? {
        assert s[NextEntry(s, cur)..] == [];
        PrependEnd(parsed);
        return Some(parsed);
      }
      ghost var next := NextEntry(s, cur);
      cur := SkipToNextEntry(s, cursor.value, cur);
      assert cur == next;
    }
    assert s[cur..] == [];
    PrependEnd(parsed);
    providers := Some(parsed);
  }

  // ---------------------------------------------------------------------------
  // Configurations of known shape, and the empty-entry finding.
  // ---------------------------------------------------------------------------

  /** A provider name as a user writes it: non-empty, with no ':' and no ','. */
  predicate PlainName(name: string) {
    name != [] && forall j :: 0 <= j < |name| ==> name[j] != ':' && name[j] != ','
  }

  /** An entry followed by a ',' is the first entry; the rest of the string follows. */
  lemma SegmentsCons(a: string, b: string)
    requires forall j :: 0 <= j < |a| ==> a[j] != ','
    ensures Segments(a + [','] + b) == [ConfigSegment(a, false)] + Segments(b)
  {
    var s := a + [','] + b;
    IndexOfIs(s, ',', |a|);
    assert s[..|a|] == a && s[|a| + 1..] == b;
  }

  /** A ',' at the start closes an empty entry. */
  lemma SegmentsLeadingComma(b: string)
    ensures Segments([','] + b) == [ConfigSegment([], false)] + Segments(b)
  {
    var s := [','] + b;
    IndexOfIs(s, ',', 0);
    assert s[1..] == b;
  }

  /** A non-empty string without ',' is one final entry. */
  lemma SegmentsLast(a: string)
    requires a != [] && forall j :: 0 <= j < |a| ==> a[j] != ','
    ensures Segments(a) == [ConfigSegment(a, true)]
  {
    IndexOfIs(a, ',', |a|);
    assert a[..|a|] == a;
  }

  lemma FieldsCons(a: string, b: string)
    requires forall j :: 0 <= j < |a| ==> a[j] != ':'
    ensures Fields(a + [':'] + b) == [a] + Fields(b)
  {
    var s := a + [':'] + b;
    IndexOfIs(s, ':', |a|);
    assert s[..|a|] == a && s[|a| + 1..] == b;
  }

  lemma FieldsLast(a: string)
    requires forall j :: 0 <= j < |a| ==> a[j] != ':'
    ensures Fields(a) == [a]
  {
    IndexOfIs(a, ':', |a|);
  }

  /** A bare name enables that provider with keywords 0 at the verbose level. */
  lemma BareNameConfig(name: string)
    requires PlainName(name)
    ensures ProvidersFromConfig(Some(name)) == Some([ProviderConfig(name, 0, LevelVerbose, None)])
  {
    SegmentsLast(name);
    FieldsLast(name);
    var segs := [ConfigSegment(name, true)];
    assert segs[1..] == [];
    assert EntryConfig(segs[0]) == Some(ProviderConfig(name, 0, LevelVerbose, None));
    var p := ProviderConfig(name, 0, LevelVerbose, None);
    assert [p] + [] == [p];
    assert EntriesConfig(segs[1..]) == Some([]);
    assert EntriesConfig(segs) == Some([p]);
    assert EntriesConfig(Segments(name)) == Some([p]);
  }

  lemma EntriesCons(seg: ConfigSegment, segs: seq<ConfigSegment>)
    ensures EntriesConfig([seg] + segs) ==
      if EntryConfig(seg).None? || EntriesConfig(segs).None? then None
      else Some([EntryConfig(seg).value] + EntriesConfig(segs).value)
  {
    assert ([seg] + segs)[1..] == segs;
  }

  /**
   * An entry with a name, keywords and a level, then a bare name: the first
   * provider takes the hexadecimal keywords and the decimal level, the second
   * keywords 0 at the verbose level.
   */
  lemma FullEntryThenBareName(name: string, keywords: string, level: string, next: string)
    requires PlainName(name) && PlainName(keywords) && PlainName(level) && PlainName(next)
    ensures ProvidersFromConfig(Some(name + [':'] + keywords + [':'] + level + [','] + next)) ==
      Some([ProviderConfig(name, ParseHex(keywords), ParseDecimal32(level), None),
            ProviderConfig(next, 0, LevelVerbose, None)])
  {
    var entry := name + [':'] + keywords + [':'] + level;
    var first := FullEntryConfig(name, keywords, level);
    var second := ProviderConfig(next, 0, LevelVerbose, None);
    SegmentsCons(entry, next);
    SegmentsLast(next);
    FieldsLast(next);
    assert EntryConfig(ConfigSegment(next, true)) == Some(second);
    EntriesCons(ConfigSegment(next, true), []);
    assert [ConfigSegment(next, true)] + [] == [ConfigSegment(next, true)];
    assert EntriesConfig([]) == Some([]) && [second] + [] == [second];
    assert EntriesConfig([ConfigSegment(next, true)]) == Some([second]);
    EntriesCons(ConfigSegment(entry, false), [ConfigSegment(next, true)]);
    assert [first] + [second] == [first, second];
  }

  /** The provider a name:keywords:level entry closed by a ',' configures. */
  lemma FullEntryConfig(name: string, keywords: string, level: string) returns (p: ProviderConfig)
    requires PlainName(name) && PlainName(keywords) && PlainName(level)
    ensures p == ProviderConfig(name, ParseHex(keywords), ParseDecimal32(level), None)
    ensures var entry := name + [':'] + keywords + [':'] + level;
      (forall j :: 0 <= j < |entry| ==> entry[j] != ',') && EntryConfig(ConfigSegment(entry, false)) == Some(p)
  {
    var tail := keywords + [':'] + level;
    var entry := name + [':'] + tail;
    assert entry == name + [':'] + keywords + [':'] + level;
    NoCommaJoined(keywords, level);
    NoCommaJoined(name, tail);
    FullEntryFields(name, keywords, level);
    p := ThreeFieldsConfig(entry, name, keywords, level);
  }

  lemma FullEntryFields(name: string, keywords: string, level: string)
    requires PlainName(name) && PlainName(keywords) && PlainName(level)
    ensures Fields(name + [':'] + (keywords + [':'] + level)) == [name, keywords, level]
  {
    FieldsCons(name, keywords + [':'] + level);
    FieldsCons(keywords, level);
    FieldsLast(level);
  }

  lemma ThreeFieldsConfig(entry: string, name: string, keywords: string, level: string) returns (p: ProviderConfig)
    requires Fields(entry) == [name, keywords, level] && name != "" && keywords != "" && level != ""
    ensures p == ProviderConfig(name, ParseHex(keywords), ParseDecimal32(level), None)
    ensures EntryConfig(ConfigSegment(entry, false)) == Some(p)
  {
    p := ProviderConfig(name, ParseHex(keywords), ParseDecimal32(level), None);
  }

  /** Joining two comma-free strings with a ':' leaves no ','. */
  lemma NoCommaJoined(a: string, b: string)
    requires forall j :: 0 <= j < |a| ==> a[j] != ','
    requires forall j :: 0 <= j < |b| ==> b[j] != ','
    ensures forall j :: 0 <= j < |a + [':'] + b| ==> (a + [':'] + b)[j] != ','
  {
    forall j | 0 <= j < |a + [':'] + b| ensures (a + [':'] + b)[j] != ',' {
      if j > |a| { assert (a + [':'] + b)[j] == b[j - |a| - 1]; }
    }
  }

  /** "Foo:10:3,Bar" enables Foo with keywords 0x10 at level 3, then Bar with keywords 0 at the verbose level. */
  lemma TwoProvidersExample()
    ensures ProvidersFromConfig(Some("Foo:10:3,Bar")) ==
      Some([ProviderConfig("Foo", 0x10, 3, None), ProviderConfig("Bar", 0, LevelVerbose, None)])
  {
    assert "Foo:10:3,Bar" == "Foo" + [':'] + "10" + [':'] + "3" + [','] + "Bar";
    FullEntryThenBareName("Foo", "10", "3", "Bar");
    HexTen();
    DecimalThree();
  }

  lemma HexTen()
    ensures ParseHex("10") == 0x10
  {
    assert "10"[1..] == "0" && "0"[1..] == "";
    assert Accumulate("0", 16, 1) == 0x10;
  }

  lemma DecimalThree()
    ensures ParseDecimal32("3") == 3
  {
    assert "3"[1..] == "";
  }

  /** An empty keywords field at the end of the string means every keyword (UINT64_MAX). */
  lemma TrailingEmptyKeywords(name: string)
    requires PlainName(name)
    ensures ProvidersFromConfig(Some(name + [':'])) == Some([ProviderConfig(name, UINT64_MAX, LevelVerbose, None)])
  {
    var text := name + [':'];
    assert text == name + [':'] + [];
    SegmentsLast(text);
    FieldsCons(name, []);
    FieldsLast([]);
    var segs := [ConfigSegment(text, true)];
    assert segs[1..] == [];
    assert Fields(text) == [name, []];
    var p := ProviderConfig(name, UINT64_MAX, LevelVerbose, None);
    assert EntryConfig(segs[0]) == Some(p);
    assert [p] + [] == [p];
    assert EntriesConfig(segs[1..]) == Some([]);
    assert EntriesConfig(segs) == Some([p]);
    assert EntriesConfig(Segments(text)) == Some([p]);
  }

  /**
   * An empty keywords field closed by a ':' is read, so it also means every
   * keyword (UINT64_MAX); the level after it is read as usual.
   */
  lemma EmptyKeywordsBeforeLevel(name: string, level: string)
    requires PlainName(name) && PlainName(level)
    ensures ProvidersFromConfig(Some(name + [':', ':'] + level)) ==
      Some([ProviderConfig(name, UINT64_MAX, ParseDecimal32(level), None)])
  {
    var text := EmptyKeywordsEntry(name, level);
    var segs := [ConfigSegment(text, true)];
    var p := ProviderConfig(name, UINT64_MAX, ParseDecimal32(level), None);
    assert EntryConfig(segs[0]) == Some(p);
    assert segs[1..] == [] && [p] + [] == [p];
    assert EntriesConfig(segs[1..]) == Some([]);
    assert EntriesConfig(segs) == Some([p]);
  }

  /** `name::level` is one entry with the fields name, an empty keywords field and level. */
  lemma EmptyKeywordsEntry(name: string, level: string) returns (text: string)
    requires PlainName(name) && PlainName(level)
    ensures text == name + [':', ':'] + level
    ensures Segments(text) == [ConfigSegment(text, true)] && Fields(text) == [name, [], level]
  {
    var tail := [] + [':'] + level;
    text := name + [':'] + tail;
    assert name + [':', ':'] + level == text;
    NoCommaJoined([], level);
    NoCommaJoined(name, tail);
    SegmentsLast(text);
    FieldsCons(name, tail);
    FieldsCons([], level);
    FieldsLast(level);
  }

  /**
   * An empty keywords field closed by a ',' is skipped rather than read: the
   * provider gets keywords 0, not UINT64_MAX.
   */
  lemma EmptyKeywordsBeforeComma(name: string, rest: string)
    requires PlainName(name)
    ensures ProvidersFromConfig(Some(name + [':', ','] + rest)).Some? ==>
      ProvidersFromConfig(Some(name + [':', ','] + rest)).value[0] == ProviderConfig(name, 0, LevelVerbose, None)
  {
    var text := name + [':'];
    var config := name + [':', ','] + rest;
    assert config == text + [','] + rest;
    SegmentsCons(text, rest);
    assert text == name + [':'] + [];
    FieldsCons(name, []);
    FieldsLast([]);
    assert Fields(text) == [name, []];
    EntriesConfigSpec(Segments(config));
  }

  /** What ep_enable_2's parse loop, as written, produces for one entry: the name may be NULL. */
  datatype ParsedEntry = ParsedEntry(name: Option<string>, keywords: uint64, level: uint32, filterData: Option<string>)

  /**
   * The entry as the loop is written: an empty entry (a ',' right after the
   * previous one) skips the name read and leaves the name NULL rather than
   * raising an error; only a name read that comes back empty is an error.
   */
  function EntryConfigAsWritten(seg: ConfigSegment): Option<ParsedEntry> {
    var fields := Fields(seg.text);
    if !FieldRead(fields, 0, seg.last) then Some(ParsedEntry(None, 0, LevelVerbose, None))
    else if fields[0] == "" then None
    else Some(ParsedEntry(
      Some(fields[0]),
      if FieldRead(fields, 1, seg.last) then KeywordsValue(fields[1]) else 0,
      if FieldRead(fields, 2, seg.last) then LevelValue(fields[2]) else LevelVerbose,
      if FieldRead(fields, 3, seg.last) then ArgumentsValue(fields[3]) else None))
  }

  function EntriesConfigAsWritten(segs: seq<ConfigSegment>): Option<seq<ParsedEntry>> {
    if segs == [] then Some([])
    else match (EntryConfigAsWritten(segs[0]), EntriesConfigAsWritten(segs[1..])) {
      case (Some(p), Some(ps)) => Some([p] + ps)
      case _ => None
    }
  }

  function AsParsed(p: ProviderConfig): ParsedEntry {
    ParsedEntry(Some(p.name), p.keywords, p.level, p.filterData)
  }

  /** The loop as written and the corrected one disagree only on empty entries. */
  lemma AsWrittenDiffersOnlyOnEmptyEntries(seg: ConfigSegment)
    requires seg.text != ""
    ensures EntryConfigAsWritten(seg) ==
      if EntryConfig(seg).None? then None else Some(AsParsed(EntryConfig(seg).value))
  {
  }

  lemma AsWrittenCons(seg: ConfigSegment, segs: seq<ConfigSegment>)
    ensures EntriesConfigAsWritten([seg] + segs) ==
      if EntryConfigAsWritten(seg).None? || EntriesConfigAsWritten(segs).None? then None
      else Some([EntryConfigAsWritten(seg).value] + EntriesConfigAsWritten(segs).value)
  {
    assert ([seg] + segs)[0] == seg && ([seg] + segs)[1..] == segs;
  }

  /** The entries of `a,,b`. */
  lemma SegmentsOfEmptyBetween(a: string, b: string)
    requires PlainName(a) && PlainName(b)
    ensures Segments(a + [',', ','] + b) == [ConfigSegment(a, false), ConfigSegment([], false), ConfigSegment(b, true)]
  {
    var c := [','] + b;
    assert a + [',', ','] + b == a + [','] + c;
    SegmentsCons(a, c);
    SegmentsLeadingComma(b);
    SegmentsLast(b);
    assert Segments(c) == [ConfigSegment([], false), ConfigSegment(b, true)];
  }

  /**
   * As written, a bare name reads as that provider, and an empty entry closed
   * by a ',' as a NULL name.
   */
  lemma AsWrittenBareEntry(text: string, last: bool)
    requires (text == [] && !last) || PlainName(text)
    ensures EntryConfigAsWritten(ConfigSegment(text, last)) ==
      Some(ParsedEntry(if text == [] then None else Some(text), 0, LevelVerbose, None))
  {
    FieldsLast(text);
    if text == [] {
      assert EntryConfigAsWritten(ConfigSegment(text, last)) == Some(ParsedEntry(None, 0, LevelVerbose, None));
    } else {
      assert EntryConfigAsWritten(ConfigSegment(text, last)) == Some(ParsedEntry(Some(text), 0, LevelVerbose, None));
    }
  }

  lemma AsWrittenOfEmptyBetween(a: string, b: string)
    requires PlainName(a) && PlainName(b)
    ensures EntriesConfigAsWritten([ConfigSegment(a, false), ConfigSegment([], false), ConfigSegment(b, true)]) ==
      Some([ParsedEntry(Some(a), 0, LevelVerbose, None),
            ParsedEntry(None, 0, LevelVerbose, None),
            ParsedEntry(Some(b), 0, LevelVerbose, None)])
  {
    var sa, se, sb := ConfigSegment(a, false), ConfigSegment([], false), ConfigSegment(b, true);
    var pa, pe, pb :=
      ParsedEntry(Some(a), 0, LevelVerbose, None), ParsedEntry(None, 0, LevelVerbose, None), ParsedEntry(Some(b), 0, LevelVerbose, None);
    AsWrittenBareEntry(a, false);
    AsWrittenBareEntry([], false);
    AsWrittenBareEntry(b, true);
    AsWrittenCons(sb, []);
    assert [sb] + [] == [sb] && [pb] + [] == [pb];
    assert EntriesConfigAsWritten([sb]) == Some([pb]);
    AsWrittenCons(se, [sb]);
    assert [se] + [sb] == [se, sb] && [pe] + [pb] == [pe, pb];
    assert EntriesConfigAsWritten([se, sb]) == Some([pe, pb]);
    AsWrittenCons(sa, [se, sb]);
    assert [sa] + [se, sb] == [sa, se, sb] && [pa] + [pe, pb] == [pa, pe, pb];
  }

  /**
   * An empty entry between two providers ("Foo,,Bar"): as written, the middle
   * entry becomes a provider configuration whose name is NULL; the corrected
   * parse rejects the string.
   */
  lemma EmptyEntryBetween(a: string, b: string)
    requires PlainName(a) && PlainName(b)
    ensures EntriesConfigAsWritten(Segments(a + [',', ','] + b)) ==
      Some([ParsedEntry(Some(a), 0, LevelVerbose, None),
            ParsedEntry(None, 0, LevelVerbose, None),
            ParsedEntry(Some(b), 0, LevelVerbose, None)])
    ensures ProvidersFromConfig(Some(a + [',', ','] + b)) == None
  {
    SegmentsOfEmptyBetween(a, b);
    AsWrittenOfEmptyBetween(a, b);
    FieldsLast([]);
    EmptyNameRejects(a + [',', ','] + b, 1);
  }

  /** The string "Foo,,Bar" itself. */
  lemma EmptyEntryExample(config: string)
    requires config == "Foo,,Bar"
    ensures EntriesConfigAsWritten(Segments(config)) ==
      Some([ParsedEntry(Some("Foo"), 0, LevelVerbose, None),
            ParsedEntry(None, 0, LevelVerbose, None),
            ParsedEntry(Some("Bar"), 0, LevelVerbose, None)])
    ensures ProvidersFromConfig(Some(config)) == None
  {
    var foo, bar := "Foo", "Bar";
    assert PlainName(foo) && PlainName(bar);
    assert foo + [',', ','] + bar == config;
    EmptyEntryBetween(foo, bar);
  }
}
