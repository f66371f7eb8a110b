/** Profile validation: the error list is empty exactly for profiles that meet the declared constraints. */
module Validation {
  import opened Wrappers
  import opened Strings
  import opened Numerals
  import opened Keys
  import opened Profiles
  import opened SpecialJunk

  const AWG_STRING_MAX := 5 * 1024 - 1
  const JC_MAX := 10
  const JUNK_SIZE_MIN := 1
  const S1_MAX := 1132
  const S2_MAX := 1188
  const S3_MAX := 64
  const S4_MAX := 32
  const MAX_UINT32 := 0xFFFF_FFFF

  datatype FieldError = FieldError(field: string, code: string)

  // ---------------------------------------------------------------- what a profile must be

  /** The length of a text in UTF-8. */
  function ByteLength(s: string): nat {
    if s == "" then 0
    else (if s[0] < '\U{80}' then 1 else if s[0] < '\U{800}' then 2 else if s[0] < '\U{10000}' then 3 else 4)
         + ByteLength(s[1..])
  }

  ghost predicate GoodJunkText(s: string) {
    ByteLength(s) <= AWG_STRING_MAX && (s == "" || Accepted(s))
  }

  predicate InUint32(r: IntRange) {
    0 <= r.min <= r.max <= MAX_UINT32
  }

  predicate InRange(r: IntRange, v: int) {
    r.min <= v <= r.max
  }

  /** No value belongs to both ranges. */
  ghost predicate Disjoint(a: IntRange, b: IntRange) {
    forall v :: !(InRange(a, v) && InRange(b, v))
  }

  predicate IsRange(r: IntRange) {
    r.min != r.max
  }

  predicate GoodJunkSizes(p: Profile) {
    && 0 <= p.jc <= JC_MAX && p.jmin <= p.jmax
    && if p.jmin == 0 && p.jmax == 0 then p.jc == 0
       else JUNK_SIZE_MIN <= p.jmin <= JUNK_SIZE_MAX && JUNK_SIZE_MIN <= p.jmax <= JUNK_SIZE_MAX
  }

  predicate GoodPaddings(p: Profile) {
    && 0 <= p.s1 <= S1_MAX && 0 <= p.s2 <= S2_MAX
    && if p.SupportsV2Fields() then 0 <= p.s3 <= S3_MAX && 0 <= p.s4 <= S4_MAX else p.s3 == 0 && p.s4 == 0
  }

  ghost predicate GoodTexts(p: Profile) {
    if p.SupportsV2Fields()
    then GoodJunkText(p.i1) && GoodJunkText(p.i2) && GoodJunkText(p.i3) && GoodJunkText(p.i4) && GoodJunkText(p.i5)
    else p.i1 == p.i2 == p.i3 == p.i4 == p.i5 == ""
  }

  predicate GoodHeader(p: Profile, r: IntRange) {
    InUint32(r) && (p.version.V1? ==> !IsRange(r))
  }

  ghost predicate GoodHeaders(p: Profile) {
    && GoodHeader(p, p.h1) && GoodHeader(p, p.h2) && GoodHeader(p, p.h3) && GoodHeader(p, p.h4)
    && Disjoint(p.h1, p.h2) && Disjoint(p.h1, p.h3) && Disjoint(p.h1, p.h4)
    && Disjoint(p.h2, p.h3) && Disjoint(p.h2, p.h4) && Disjoint(p.h3, p.h4)
  }

  predicate OrderedRange(r: IntRange) {
    r.min <= r.max
  }

  predicate NoV31Values(p: Profile) {
    && p.headerProtectionKey == ""
    && p.contentPaddingAddition.IsZero() && p.rekeyAfterTime.IsZero() && p.rekeyTimeout.IsZero()
    && p.rejectAfterTime.IsZero() && p.keepaliveTimeout.IsZero() && p.maxHandshakeAttempts.IsZero()
    && p.persistentKeepalive.IsZero()
    && !p.randomTrailers && !p.disableCookies
  }

  predicate GoodV31(p: Profile) {
    if p.IsV31() then
      && ValidBase64Key(p.headerProtectionKey)
      && p.s1 >= 12 && p.s2 >= 12 && p.s3 >= 12 && p.s4 >= 12
      && OrderedRange(p.contentPaddingAddition) && OrderedRange(p.rekeyAfterTime) && OrderedRange(p.rekeyTimeout)
      && OrderedRange(p.rejectAfterTime) && OrderedRange(p.keepaliveTimeout) && OrderedRange(p.maxHandshakeAttempts)
      && OrderedRange(p.persistentKeepalive)
      && (p.randomTrailers ==> !IsRange(p.h1) && !IsRange(p.h2) && !IsRange(p.h3))
    else NoV31Values(p)
  }

  predicate GoodPolicy(policy: string) {
    policy == "" || policy == "fixed" || policy == "managed"
  }

  ghost predicate ValidProfile(p: Profile) {
    && TrimSpace(p.name) != "" && !p.version.Unsupported?
    && GoodJunkSizes(p) && GoodPaddings(p) && GoodTexts(p) && GoodHeaders(p) && GoodV31(p)
    && GoodPolicy(p.listenPortPolicy)
  }

  // ---------------------------------------------------------------- the checks

  function Check(bad: bool, field: string, code: string): seq<FieldError> {
    if bad then [FieldError(field, code)] else []
  }

  function CheckInt(field: string, v: int, lo: int, hi: int): seq<FieldError> {
    Check(v < lo || v > hi, field, "out_of_range")
  }

  predicate RangesOverlap(a: IntRange, b: IntRange) {
    a.min <= b.max && b.min <= a.max
  }

  /** For ordered ranges the bounds test finds exactly the shared values. */
  lemma OverlapIff(a: IntRange, b: IntRange)
    requires OrderedRange(a) && OrderedRange(b)
    ensures RangesOverlap(a, b) <==> !Disjoint(a, b)
  {
    if RangesOverlap(a, b) {
      var v := if a.min <= b.min then b.min else a.min;
      assert InRange(a, v) && InRange(b, v);
    }
  }

  /** Errors about the junk sizes, in the order they are reported. */
  method CheckJunkSizes(p: Profile) returns (errs: seq<FieldError>)
    ensures errs == [] <==> GoodJunkSizes(p)
  {
    errs := CheckInt("jc", p.jc, 0, JC_MAX);
    if p.jmin == 0 && p.jmax == 0 {
      if p.jc > 0 {
        errs := errs + [FieldError("jmin", "required")];
      }
    } else {
      errs := errs + CheckInt("jmin", p.jmin, JUNK_SIZE_MIN, JUNK_SIZE_MAX);
      errs := errs + CheckInt("jmax", p.jmax, JUNK_SIZE_MIN, JUNK_SIZE_MAX);
    }
    if p.jmin > p.jmax {
      errs := errs + [FieldError("jmin", "invalid")];
    }
  }

  method CheckText(name: string, v: string) returns (errs: seq<FieldError>)
    ensures errs == [] <==> GoodJunkText(v)
  {
    errs := [];
    if ByteLength(v) > AWG_STRING_MAX {
      errs := [FieldError(name, "too_long")];
    } else if v != "" {
      var ok := ValidateSpecialJunk(v);
      if !ok {
        errs := [FieldError(name, "invalid_obfuscation")];
      }
    }
  }

  /** The loop over the five texts. */
  method CheckTexts(texts: seq<(string, string)>) returns (errs: seq<FieldError>)
    ensures errs == [] <==> forall i :: 0 <= i < |texts| ==> GoodJunkText(texts[i].1)
  {
    errs := [];
    for i := 0 to |texts|
      invariant errs == [] <==> forall k :: 0 <= k < i ==> GoodJunkText(texts[k].1)
    {
      var more := CheckText(texts[i].0, texts[i].1);
      errs := errs + more;
    }
  }

  method CheckPaddings(p: Profile) returns (errs: seq<FieldError>)
    ensures errs == [] <==> GoodPaddings(p) && GoodTexts(p)
  {
    errs := CheckInt("s1", p.s1, 0, S1_MAX);
    errs := errs + CheckInt("s2", p.s2, 0, S2_MAX);
    if p.SupportsV2Fields() {
      errs := errs + CheckInt("s3", p.s3, 0, S3_MAX);
      errs := errs + CheckInt("s4", p.s4, 0, S4_MAX);
      var texts := [("i1", p.i1), ("i2", p.i2), ("i3", p.i3), ("i4", p.i4), ("i5", p.i5)];
      var more := CheckTexts(texts);
      FiveTexts(texts);
      errs := errs + more;
    } else {
      if p.s3 != 0 || p.s4 != 0 {
        errs := errs + [FieldError("s3", "unsupported")];
      }
      if p.i1 != "" || p.i2 != "" || p.i3 != "" || p.i4 != "" || p.i5 != "" {
        errs := errs + [FieldError("i1", "unsupported")];
      }
    }
  }

  lemma FiveTexts(texts: seq<(string, string)>)
    requires |texts| == 5
    ensures (forall i :: 0 <= i < |texts| ==> GoodJunkText(texts[i].1)) <==>
            GoodJunkText(texts[0].1) && GoodJunkText(texts[1].1) && GoodJunkText(texts[2].1)
            && GoodJunkText(texts[3].1) && GoodJunkText(texts[4].1)
  {
  }

  /** The loop over the four headers. */
  method CheckEachHeader(v1: bool, hs: seq<(string, IntRange)>) returns (errs: seq<FieldError>)
    ensures errs == [] <==> forall i :: 0 <= i < |hs| ==> InUint32(hs[i].1) && (v1 ==> !IsRange(hs[i].1))
  {
    errs := [];
    for i := 0 to |hs|
      invariant errs == [] <==> forall k :: 0 <= k < i ==> InUint32(hs[k].1) && (v1 ==> !IsRange(hs[k].1))
    {
      var name, r := hs[i].0, hs[i].1;
      if r.min < 0 || r.max < 0 || r.max > MAX_UINT32 {
        errs := errs + [FieldError(name, "out_of_range")];
      }
      if r.min > r.max {
        errs := errs + [FieldError(name, "invalid")];
      }
      if v1 && r.min != r.max {
        errs := errs + [FieldError(name, "unsupported")];
      }
    }
  }

  method CheckHeaders(p: Profile) returns (errs: seq<FieldError>)
    ensures errs == [] <==> GoodHeaders(p)
  {
    var hs := [("h1", p.h1), ("h2", p.h2), ("h3", p.h3), ("h4", p.h4)];
    errs := CheckEachHeader(p.version.V1?, hs);
    assert errs == [] <==> GoodHeader(p, p.h1) && GoodHeader(p, p.h2) && GoodHeader(p, p.h3) && GoodHeader(p, p.h4) by {
      assert hs[0].1 == p.h1 && hs[1].1 == p.h2 && hs[2].1 == p.h3 && hs[3].1 == p.h4;
    }
    if errs == [] {
      OverlapIff(p.h1, p.h2);
      OverlapIff(p.h1, p.h3);
      OverlapIff(p.h1, p.h4);
      OverlapIff(p.h2, p.h3);
      OverlapIff(p.h2, p.h4);
      OverlapIff(p.h3, p.h4);
    }
    if RangesOverlap(p.h1, p.h2) || RangesOverlap(p.h1, p.h3) || RangesOverlap(p.h1, p.h4)
       || RangesOverlap(p.h2, p.h3) || RangesOverlap(p.h2, p.h4) || RangesOverlap(p.h3, p.h4) {
      errs := errs + [FieldError("h1", "overlap")];
    }
  }

  method CheckV31(p: Profile) returns (errs: seq<FieldError>)
    ensures errs == [] <==> GoodV31(p)
  {
    errs := [];
    if p.IsV31() {
      errs := errs + Check(!ValidBase64Key(p.headerProtectionKey), "header_protection_key", "invalid");
      var paddings := CheckAtLeast([("s1", p.s1), ("s2", p.s2), ("s3", p.s3), ("s4", p.s4)]);
      errs := errs + paddings;
      var ranges := CheckRanges([
        ("content_padding_addition", p.contentPaddingAddition), ("rekey_after_time", p.rekeyAfterTime),
        ("rekey_timeout", p.rekeyTimeout), ("reject_after_time", p.rejectAfterTime),
        ("keepalive_timeout", p.keepaliveTimeout), ("max_handshake_attempts", p.maxHandshakeAttempts),
        ("persistent_keepalive", p.persistentKeepalive)]);
      errs := errs + ranges;
      if p.randomTrailers && (IsRange(p.h1) || IsRange(p.h2) || IsRange(p.h3)) {
        errs := errs + [FieldError("random_trailers", "unsafe_header_range")];
      }
    } else if !NoV31Values(p) {
      errs := [FieldError("header_protection_key", "unsupported")];
    }
  }

  method CheckAtLeast(paddings: seq<(string, int)>) returns (errs: seq<FieldError>)
    requires |paddings| == 4
    ensures errs == [] <==> paddings[0].1 >= 12 && paddings[1].1 >= 12 && paddings[2].1 >= 12 && paddings[3].1 >= 12
  {
    errs := [];
    for i := 0 to |paddings|
      invariant errs == [] <==> forall k :: 0 <= k < i ==> paddings[k].1 >= 12
    {
      errs := errs + Check(paddings[i].1 < 12, paddings[i].0, "header_protection_padding");
    }
  }

  method CheckRanges(rs: seq<(string, IntRange)>) returns (errs: seq<FieldError>)
    requires |rs| == 7
    ensures errs == [] <==>
      OrderedRange(rs[0].1) && OrderedRange(rs[1].1) && OrderedRange(rs[2].1) && OrderedRange(rs[3].1)
      && OrderedRange(rs[4].1) && OrderedRange(rs[5].1) && OrderedRange(rs[6].1)
  {
    errs := [];
    for i := 0 to |rs|
      invariant errs == [] <==> forall k :: 0 <= k < i ==> OrderedRange(rs[k].1)
    {
      errs := errs + Check(!OrderedRange(rs[i].1), rs[i].0, "invalid");
    }
  }

  /** No error is reported exactly for valid profiles. */
  method Validate(p: Profile) returns (errs: seq<FieldError>)
    ensures errs == [] <==> ValidProfile(p)
  {
    errs := Check(TrimSpace(p.name) == "", "name", "required");
    if p.version.Unsupported? {
      return errs + [FieldError("protocol_version", "unsupported")];
    }
    var junk := CheckJunkSizes(p);
    var paddings := CheckPaddings(p);
    var headers := CheckHeaders(p);
    var v31 := CheckV31(p);
    errs := errs + junk + paddings + headers + v31;
    if !GoodPolicy(p.listenPortPolicy) {
      errs := errs + [FieldError("listen_port_policy", "unsupported")];
    }
  }

  // ---------------------------------------------------------------- headers of valid profiles

  function Owners(p: Profile, v: int): nat {
    (if InRange(p.h1, v) then 1 else 0) + (if InRange(p.h2, v) then 1 else 0)
    + (if InRange(p.h3, v) then 1 else 0) + (if InRange(p.h4, v) then 1 else 0)
  }

  /** Any 32-bit value is at most one kind of header. */
  lemma HeadersClassify(p: Profile, v: int)
    requires ValidProfile(p)
    ensures Owners(p, v) <= 1
  {
  }

  /** ParseIntRange: "n" or "n-m", where a dash in front is a sign. */
  function ParseIntRange(text: string): Option<IntRange> {
    var s := TrimSpace(text);
    if s == "" then None
    else
      var i := IndexOf(s, '-');
      if i > 0 then
        var lo, hi := ParseInt(TrimSpace(s[..i])), ParseInt(TrimSpace(s[i + 1..]));
        if lo.None? || hi.None? || lo.value > hi.value then None else Some(IntRange(lo.value, hi.value))
      else
        var v := ParseInt(s);
        if v.None? then None else Some(IntRange(v.value, v.value))
  }

  predicate Int64(n: int) {
    MIN_INT64 <= n <= MAX_INT64
  }

  lemma ParseSingle(n: int)
    requires Int64(n)
    ensures ParseIntRange(FormatInt(n)) == Some(IntRange(n, n))
  {
    var s := FormatInt(n);
    TrimmedStays(s);
    ParseFormat(n);
    assert n < 0 ==> IndexOf(s, '-') == 0;
  }

  lemma DashedIsTrimmed(x: string, y: string)
    requires x != "" && y != "" && Trimmed(x) && Trimmed(y)
    ensures TrimSpace(x + ['-'] + y) == x + ['-'] + y
  {
    var s := x + ['-'] + y;
    assert s[0] == x[0] && s[|s| - 1] == y[|y| - 1];
    TrimmedStays(s);
  }

  lemma ParsePair(a: int, b: int)
    requires Int64(a) && Int64(b) && a >= 0
    ensures ParseIntRange(FormatInt(a) + ['-'] + FormatInt(b)) == if a <= b then Some(IntRange(a, b)) else None
  {
    var x, y := FormatInt(a), FormatInt(b);
    var s := x + ['-'] + y;
    DashedIsTrimmed(x, y);
    IndexIs(x, '-', y);
    assert s[..|x|] == x && s[|x| + 1..] == y;
    TrimmedStays(x);
    TrimmedStays(y);
    ParseFormat(a);
    ParseFormat(b);
  }

  lemma ParseNegativePair(a: int, b: int)
    requires Int64(a) && Int64(b) && a < 0
    ensures ParseIntRange(FormatInt(a) + "-" + FormatInt(b)) == None
  {
    var x, y := FormatInt(a), FormatInt(b);
    var s := x + "-" + y;
    assert s[0] == '-' && s[|x|] == '-' && |x| >= 1;
    assert s[|s| - 1] == y[|y| - 1];
    TrimmedStays(s);
    assert IndexOf(s, '-') == 0;
    NotANumber(s, |x|);
  }

  lemma NotANumber(s: string, k: nat)
    requires 0 < k < |s| && s[0] == '-' && !IsDigit(s[k])
    ensures ParseInt(s) == None
  {
    var body := s[1..];
    assert !IsDigit(body[k - 1]);
    assert !IsNumeral(body);
  }

  /** A printed range parses back exactly when it is one number or an ordered range from a non-negative number. */
  lemma RangeRoundTrip(r: IntRange)
    requires Int64(r.min) && Int64(r.max)
    ensures ParseIntRange(r.Text()) == Some(r) <==> r.min == r.max || 0 <= r.min < r.max
  {
    if r.min == r.max {
      ParseSingle(r.min);
    } else if r.min >= 0 {
      assert "-" == ['-'];
      ParsePair(r.min, r.max);
    } else {
      ParseNegativePair(r.min, r.max);
    }
  }

  /** The headers of a valid profile survive printing and parsing. */
  lemma HeadersSurvive(p: Profile)
    requires ValidProfile(p)
    ensures ParseIntRange(p.h1.Text()) == Some(p.h1) && ParseIntRange(p.h2.Text()) == Some(p.h2)
    ensures ParseIntRange(p.h3.Text()) == Some(p.h3) && ParseIntRange(p.h4.Text()) == Some(p.h4)
  {
    RangeRoundTrip(p.h1);
    RangeRoundTrip(p.h2);
    RangeRoundTrip(p.h3);
    RangeRoundTrip(p.h4);
  }
}
