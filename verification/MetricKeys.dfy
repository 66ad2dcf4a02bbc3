/** The text of metric keys: paths with identifiers collapsed, and method, path and status joined by colons. */
module MetricKeys {
  import opened Paths

  // ---------- Paths ----------

  predicate IsDigit(c: char) { '0' <= c <= '9' }

  predicate LikelyID(s: string) {
    || (|s| > 0 && forall i :: 0 <= i < |s| ==> IsDigit(s[i]))
    || (|s| >= 32 && '-' in s)
  }

  method IsLikelyID(s: string) returns (likely: bool)
    ensures likely == LikelyID(s)
  {
    var allDigits := true;
    for i := 0 to |s|
      invariant allDigits && forall j :: 0 <= j < i ==> IsDigit(s[j])
    {
      if s[i] < '0' || s[i] > '9' {
        assert !IsDigit(s[i]);
        allDigits := false;
        break;
      }
    }
    if allDigits && |s| > 0 {
      return true;
    }
    if |s| >= 32 && '-' in s {
      return true;
    }
    return false;
  }

  function Segment(part: string): string {
    if LikelyID(part) then ":id" else part
  }

  function Normalized(path: string): string {
    var parts := Split(path);
    Join(seq(|parts|, i requires 0 <= i < |parts| => Segment(parts[i])))
  }

  method NormalizePath(path: string) returns (normalized: string)
    ensures normalized == Normalized(path)
  {
    var parts := Split(path);
    ghost var original := parts;
    for i := 0 to |parts|
      invariant |parts| == |original|
      invariant forall j :: 0 <= j < i ==> parts[j] == Segment(original[j])
      invariant forall j :: i <= j < |parts| ==> parts[j] == original[j]
    {
      var likely := IsLikelyID(parts[i]);
      if |parts[i]| > 0 && likely {
        parts := parts[i := ":id"];
      }
    }
    normalized := Join(parts);
    assert parts == seq(|original|, i requires 0 <= i < |original| => Segment(original[i]));
  }

  /** A segment looks like an identifier if it is a number, or at least 32 long with a hyphen in it. */
  lemma LikelyExactly(part: string)
    ensures LikelyID(part)
       <==> (part != "" && forall c :: c in part ==> c in "0123456789") || (|part| >= 32 && '-' in part)
  {
    forall i | 0 <= i < |part| ensures IsDigit(part[i]) <==> part[i] in "0123456789" {
      assert part[i] in part;
      DigitExactly(part[i]);
    }
  }

  lemma DigitExactly(c: char)
    ensures IsDigit(c) <==> c in "0123456789"
  {
    var digits := "0123456789";
    assert forall i :: 0 <= i < 10 ==> digits[i] as int == '0' as int + i;
    if IsDigit(c) { assert digits[c as int - '0' as int] == c; }
  }

  /** Normalising replaces exactly the segments that look like identifiers and keeps their number and order. */
  lemma NormalizedSegments(path: string)
    ensures |Split(Normalized(path))| == |Split(path)|
    ensures forall i :: 0 <= i < |Split(path)| ==> Split(Normalized(path))[i] == Segment(Split(path)[i])
  {
    var parts := Split(path);
    var segments := seq(|parts|, i requires 0 <= i < |parts| => Segment(parts[i]));
    SplitJoin(segments);
  }

  /** In terms of the characters: which segments of a path become ":id", the others staying as they are. */
  lemma NormalizedExactly(path: string, i: nat)
    requires i < |Split(path)|
    ensures |Split(Normalized(path))| == |Split(path)|
    ensures var part := Split(path)[i];
            Split(Normalized(path))[i]
            == if (part != "" && forall c :: c in part ==> c in "0123456789") || (|part| >= 32 && '-' in part)
               then ":id" else part
  {
    NormalizedSegments(path);
    LikelyExactly(Split(path)[i]);
  }

  lemma NormalizedTwice(path: string)
    ensures Normalized(Normalized(path)) == Normalized(path)
  {
    NormalizedSegments(path);
    var once := Split(Normalized(path));
    assert ":id"[0] == ':' && !IsDigit(':');
    assert forall i :: 0 <= i < |once| ==> Segment(once[i]) == once[i];
    assert seq(|once|, i requires 0 <= i < |once| => Segment(once[i])) == once;
    JoinSplit(Normalized(path));
  }

  // ---------- Numbers ----------

  function Digit(d: nat): char
    requires d < 10
  {
    ('0' as int + d) as char
  }

  function Decimal(n: nat): (text: string)
    ensures |text| > 0 && forall i :: 0 <= i < |text| ==> IsDigit(text[i])
  {
    if n < 10 then [Digit(n)] else Decimal(n / 10) + [Digit(n % 10)]
  }

  function Itoa(n: int): (text: string)
    ensures ':' !in text
  {
    if n < 0 then "-" + Decimal(-n) else Decimal(n)
  }

  function Value(text: string): int {
    if |text| == 0 then 0
    else Value(text[..|text| - 1]) * 10 + (text[|text| - 1] as int - '0' as int)
  }

  lemma {:induction false} DecimalValue(n: nat)
    ensures Value(Decimal(n)) == n
  {
    if n >= 10 {
      DecimalValue(n / 10);
      assert Decimal(n)[..|Decimal(n)| - 1] == Decimal(n / 10);
    }
  }

  lemma SignShows(n: int)
    ensures |Itoa(n)| > 0 && (Itoa(n)[0] == '-' <==> n < 0)
  {
    assert !IsDigit('-');
  }

  lemma ItoaInjective(m: int, n: int)
    requires Itoa(m) == Itoa(n)
    ensures m == n
  {
    SignShows(m);
    SignShows(n);
    if m < 0 {
      assert Itoa(m)[1..] == Decimal(-m) && Itoa(n)[1..] == Decimal(-n);
      DecimalValue(-m);
      DecimalValue(-n);
    } else {
      DecimalValue(m);
      DecimalValue(n);
    }
  }

  // ---------- Keys ----------

  function CounterKey(verb: string, path: string, status: int): string {
    verb + ":" + path + ":" + Itoa(status)
  }

  function LatencyKey(verb: string, path: string): string {
    verb + ":" + path
  }

  lemma FirstColon(v: string, r: string, w: string, t: string)
    requires ':' !in v && ':' !in w && v + ":" + r == w + ":" + t
    ensures v == w && r == t
  {
    var left, right := v + ":" + r, w + ":" + t;
    assert left[|v|] == ':' && right[|w|] == ':';
    assert forall i :: 0 <= i < |v| ==> left[i] == v[i];
    assert forall i :: 0 <= i < |w| ==> right[i] == w[i];
    assert |v| == |w|;
    assert v == left[..|v|] && w == right[..|w|];
    assert r == left[|v| + 1..] && t == right[|w| + 1..];
  }

  lemma LastColon(x: string, d: string, y: string, e: string)
    requires ':' !in d && ':' !in e && x + ":" + d == y + ":" + e
    ensures x == y && d == e
  {
    var left, right := x + ":" + d, y + ":" + e;
    assert left[|x|] == ':' && right[|y|] == ':';
    assert forall i :: |x| < i < |left| ==> left[i] == d[i - |x| - 1];
    assert forall i :: |y| < i < |right| ==> right[i] == e[i - |y| - 1];
    assert |x| == |y|;
    assert x == left[..|x|] && y == right[..|y|];
    assert d == left[|x| + 1..] && e == right[|y| + 1..];
  }

  /**
   * For methods without a colon, distinct method, path and status triples have distinct keys, even
   * when paths contain ":id".
   */
  lemma CounterKeysDistinct(v: string, p: string, s: int, w: string, q: string, t: int)
    requires ':' !in v && ':' !in w
    ensures CounterKey(v, p, s) == CounterKey(w, q, t) <==> v == w && p == q && s == t
  {
    if CounterKey(v, p, s) == CounterKey(w, q, t) {
      LastColon(v + ":" + p, Itoa(s), w + ":" + q, Itoa(t));
      ItoaInjective(s, t);
      FirstColon(v, p, w, q);
    }
  }

  lemma LatencyKeysDistinct(v: string, p: string, w: string, q: string)
    requires ':' !in v && ':' !in w
    ensures LatencyKey(v, p) == LatencyKey(w, q) <==> v == w && p == q
  {
    if LatencyKey(v, p) == LatencyKey(w, q) { FirstColon(v, p, w, q); }
  }

  predicate HasSuffix(s: string, suffix: string) {
    |s| >= |suffix| && s[|s| - |suffix|..] == suffix
  }

  /** A key ends in a colon and a status's digits exactly when it is a key of that status. */
  lemma SuffixIsStatus(verb: string, path: string, status: int, tested: int)
    ensures HasSuffix(CounterKey(verb, path, status), ":" + Itoa(tested)) <==> status == tested
  {
    if HasSuffix(CounterKey(verb, path, status), ":" + Itoa(tested)) {
      EndsAfterLastColon(verb + ":" + path, Itoa(status), Itoa(tested));
      ItoaInjective(status, tested);
    } else if status == tested {
      EndsAfterLastColon(verb + ":" + path, Itoa(status), Itoa(tested));
    }
  }

  lemma EndsAfterLastColon(front: string, d: string, e: string)
    requires ':' !in d && ':' !in e
    ensures HasSuffix(front + ":" + d, ":" + e) <==> d == e
  {
    var key, suffix := front + ":" + d, ":" + e;
    if HasSuffix(key, suffix) {
      var rest := key[..|key| - |suffix|];
      assert key == rest + ":" + e;
      LastColon(front, d, rest, e);
    } else {
      assert key == front + (":" + d);
      assert key[|front|..] == ":" + d;
    }
  }

  /** The suffixes the healer tests for. */
  predicate CountsAsFailure(key: string) {
    HasSuffix(key, ":502") || HasSuffix(key, ":504") || HasSuffix(key, ":500")
  }

  lemma FailureKeys(verb: string, path: string, status: int)
    ensures CountsAsFailure(CounterKey(verb, path, status)) <==> status in {500, 502, 504}
  {
    ThreeDigits();
    assert ":" + "500" == ":500" && ":" + "502" == ":502" && ":" + "504" == ":504";
    hide CounterKey, Itoa, HasSuffix;
    SuffixIsStatus(verb, path, status, 500);
    SuffixIsStatus(verb, path, status, 502);
    SuffixIsStatus(verb, path, status, 504);
  }

  lemma ThreeDigits()
    ensures Itoa(500) == "500" && Itoa(502) == "502" && Itoa(504) == "504"
  {
    assert Decimal(5) == "5" && Decimal(50) == "50";
  }
}
