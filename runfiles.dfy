/**
 * Which per-run signal files take part, and their run numbers: a file
 * name must end with `_eeg.npy`, and its run number is the decimal value
 * of the digits of the first `_S<digits>` in the name (the regular
 * expression `_S(\d+)` searched from the left, `\d+` taking every digit
 * that follows).
 */
module RunFiles {
  import opened Wrappers

  const EegSuffix := "_eeg.npy"

  predicate EndsWith(s: string, suffix: string) {
    |suffix| <= |s| && s[|s| - |suffix|..] == suffix
  }

  predicate IsDigit(c: char) {
    '0' <= c <= '9'
  }

  /** `_S` followed by at least one digit starts at position `i`. */
  predicate MatchAt(s: string, i: nat) {
    i + 2 < |s| && s[i] == '_' && s[i + 1] == 'S' && IsDigit(s[i + 2])
  }

  /** The leftmost position at or after `from` where `_S<digit>` starts. */
  function FirstMatchFrom(s: string, from: nat): (r: Option<nat>)
    requires from <= |s|
    ensures r.Some? ==> from <= r.value && MatchAt(s, r.value)
    ensures r.Some? ==> forall j :: from <= j < r.value ==> !MatchAt(s, j)
    ensures r.None? ==> forall j :: from <= j ==> !MatchAt(s, j)
    decreases |s| - from
  {
    if from == |s| then None
    else if MatchAt(s, from) then Some(from)
    else FirstMatchFrom(s, from + 1)
  }

  /** How many digits follow position `from` without a break (a greedy `\d*`). */
  function DigitRun(s: string, from: nat): (n: nat)
    requires from <= |s|
    ensures from + n <= |s|
    ensures forall j :: from <= j < from + n ==> IsDigit(s[j])
    ensures from + n == |s| || !IsDigit(s[from + n])
    decreases |s| - from
  {
    if from < |s| && IsDigit(s[from]) then 1 + DigitRun(s, from + 1) else 0
  }

  /** `int(d)` of a string of decimal digits. */
  function DecimalValue(d: string): nat
    requires forall j :: 0 <= j < |d| ==> IsDigit(d[j])
  {
    if d == [] then 0
    else
      assert IsDigit(d[|d| - 1]);
      10 * DecimalValue(d[..|d| - 1]) + (d[|d| - 1] as int - '0' as int)
  }

  /** `d` is the whole digit string of the first `_S<digits>` of `name`, which starts at `i`. */
  ghost predicate FirstRunMarker(name: string, i: nat, d: string) {
    && MatchAt(name, i)
    && (forall j :: 0 <= j < i ==> !MatchAt(name, j))
    && i + 2 + |d| <= |name|
    && d == name[i + 2..i + 2 + |d|]
    && (forall j :: 0 <= j < |d| ==> IsDigit(d[j]))
    && (i + 2 + |d| == |name| || !IsDigit(name[i + 2 + |d|]))
  }

  /** `re.search(r'_S(\d+)', name)` followed by `int(m.group(1))`; `None` when there is no match. */
  function RunNumber(name: string): (r: Option<nat>)
    ensures r.Some? <==> exists i :: MatchAt(name, i)
    ensures r.Some? ==> exists i, d :: FirstRunMarker(name, i, d) && r.value == DecimalValue(d)
  {
    match FirstMatchFrom(name, 0)
    case None => None
    case Some(i) =>
      var d := name[i + 2..i + 2 + DigitRun(name, i + 2)];
      assert FirstRunMarker(name, i, d);
      Some(DecimalValue(d))
  }

  /** The decimal spelling of `n`, as `f"{n}"` writes it. */
  function DecimalString(n: nat): (d: string)
    ensures |d| > 0 && forall j :: 0 <= j < |d| ==> IsDigit(d[j])
  {
    var last := ['0' + (n % 10) as char];
    if n < 10 then last else DecimalString(n / 10) + last
  }

  /** Reading back the decimal spelling of `n` gives `n`. */
  lemma {:induction false} DecimalRoundTrip(n: nat)
    ensures DecimalValue(DecimalString(n)) == n
  {
    var d := DecimalString(n);
    if n >= 10 {
      DecimalRoundTrip(n / 10);
      assert d[..|d| - 1] == DecimalString(n / 10);
    }
  }

  /**
   * A name `prefix + "_S" + f"{n}" + rest`, whose prefix holds no
   * `_S<digit>` and whose rest does not start with a digit, has run number `n`.
   */
  lemma RunNumberOfSpelledName(prefix: string, n: nat, rest: string)
    requires forall j :: 0 <= j < |prefix| ==> !MatchAt(prefix, j)
    requires rest == [] || !IsDigit(rest[0])
    ensures RunNumber(prefix + "_S" + DecimalString(n) + rest) == Some(n)
  {
    var digits := DecimalString(n);
    var name := prefix + "_S" + digits + rest;
    var at := |prefix|;
    assert MatchAt(name, at);
    forall j | 0 <= j < at ensures !MatchAt(name, j) {
      if j + 2 < |prefix| {
        assert name[j..j + 3] == prefix[j..j + 3];
        assert !MatchAt(prefix, j);
      }
    }
    var i := FirstMatchFrom(name, 0).value;
    assert i == at;
    var run := DigitRun(name, at + 2);
    assert name[at + 2..at + 2 + |digits|] == digits;
    assert run == |digits|;
    DecimalRoundTrip(n);
  }

  /** The files the extractor reads: `None` for a name without the suffix or without a run number. */
  function AcceptedRun(name: string): (r: Option<nat>)
    ensures r.Some? <==> EndsWith(name, EegSuffix) && exists i :: MatchAt(name, i)
    ensures r.Some? ==> r == RunNumber(name)
  {
    if EndsWith(name, EegSuffix) then RunNumber(name) else None
  }

  /** The names the ICA stage writes, `HS_P1_S{i}_eeg.npy`, are accepted with run number `i`. */
  lemma ProducerNamesAccepted(i: nat)
    ensures AcceptedRun("HS_P1_S" + DecimalString(i) + EegSuffix) == Some(i)
  {
    var prefix := "HS_P1";
    forall j | 0 <= j < |prefix| ensures !MatchAt(prefix, j) {
      assert prefix[0] == 'H' && prefix[1] == 'S' && prefix[2] == '_' && prefix[3] == 'P' && prefix[4] == '1';
    }
    RunNumberOfSpelledName(prefix, i, EegSuffix);
    var d := DecimalString(i);
    var name := prefix + "_S" + d + EegSuffix;
    assert prefix + "_S" == "HS_P1_S";
    assert "HS_P1_S" + d + EegSuffix == name;
    assert EndsWith(name, EegSuffix) by {
      assert name[|name| - |EegSuffix|..] == EegSuffix;
    }
  }
}
