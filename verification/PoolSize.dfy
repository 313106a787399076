/** How many workers scripts/publint-all.ts starts. */
module PoolSize {
  import opened Common
  import opened Decimal
  import opened Text
  import opened WorkerPool

  const MAX_SAFE_INTEGER := 9_007_199_254_740_991

  /** `Number.parseInt(raw, 10)`, before rounding: white space, a sign, and as many digits as follow. */
  function ParseInt(raw: string): Option<int> {
    var trimmed := raw[Leading(raw, IsSpace)..];
    var signed := trimmed != "" && (trimmed[0] == '+' || trimmed[0] == '-');
    var digits := if signed then trimmed[1..] else trimmed;
    var n := Leading(digits, IsDigit);
    if n == 0 then None
    else
      var value: int := Decimal.Read(digits[..n]);
      Some(if signed && trimmed[0] == '-' then -value else value)
  }

  /** A rounded value is a safe integer exactly when the exact value is; only safe integers are printed. */
  predicate Accepts(raw: string) {
    var parsed := ParseInt(raw);
    parsed.Some? && 1 <= parsed.value <= MAX_SAFE_INTEGER && Decimal.Print(parsed.value) == raw
  }

  function Min(a: nat, b: nat): nat {
    if a < b then a else b
  }

  /** `publintConcurrency`, for the value of the environment variable and the available parallelism. */
  function PublintConcurrency(total: nat, raw: Option<string>, parallelism: nat): Result<nat, string> {
    if total == 0 then Ok(0)
    else if raw.Some? && raw.value != "" then
      if Accepts(raw.value) then Ok(Min(total, ParseInt(raw.value).value)) else Err(raw.value)
    else Ok(Min(total, parallelism))
  }

  lemma ParsePlain(raw: string)
    requires AllDigits(raw) && raw != ""
    ensures ParseInt(raw) == Some(Decimal.Read(raw))
  {
    hide Decimal.Read;
    assert IsDigit(raw[0]);
    assert Leading(raw, IsSpace) == 0 && raw[0..] == raw;
    assert raw[..|raw|] == raw && raw + "" == raw;
    hide Leading;
    LeadingExact(raw, "", IsDigit);
  }

  /** Accepted are exactly the printed forms of the positive safe integers. */
  lemma AcceptsExactly(raw: string)
    ensures Accepts(raw) <==> AllDigits(raw) && raw != "" && raw[0] != '0' && Decimal.Read(raw) <= MAX_SAFE_INTEGER
    ensures Accepts(raw) ==> ParseInt(raw) == Some(Decimal.Read(raw))
  {
    hide ParseInt, Decimal.Read, Decimal.Print;
    if Accepts(raw) {
      ReadPrint(ParseInt(raw).value);
      PrintCanonical(ParseInt(raw).value);
    }
    if AllDigits(raw) && raw != "" && raw[0] != '0' {
      ParsePlain(raw);
      ReadPositive(raw);
      PrintRead(raw);
    }
  }

  /** With something to do there is a worker, and there are never more workers than targets. */
  lemma SomebodyWorks(total: nat, raw: Option<string>, parallelism: nat)
    requires parallelism >= 1 && PublintConcurrency(total, raw, parallelism).Ok?
    ensures var concurrency := PublintConcurrency(total, raw, parallelism).value;
      concurrency <= total && (total > 0 ==> concurrency >= 1)
    ensures total > 0 && raw.Some? && raw.value != "" ==>
      AllDigits(raw.value) && PublintConcurrency(total, raw, parallelism).value == Min(total, Decimal.Read(raw.value))
  {
    if raw.Some? {
      AcceptsExactly(raw.value);
    }
  }

  /** A run over all targets: whatever the setting, either it is refused or every target gets its own result. */
  method LintAll<T(!new), R>(targets: seq<T>, lint: T -> R, raw: Option<string>, parallelism: nat) returns (r: Result<seq<R>, string>)
    requires parallelism >= 1
    ensures r.Err? <==> targets != [] && raw.Some? && raw.value != "" && !Accepts(raw.value)
    ensures r.Ok? ==> |r.value| == |targets| && forall i :: 0 <= i < |targets| ==> r.value[i] == lint(targets[i])
  {
    hide Accepts;
    var concurrency := PublintConcurrency(|targets|, raw, parallelism);
    if concurrency.Err? {
      return Err(concurrency.error);
    }
    SomebodyWorks(|targets|, raw, parallelism);
    var results := RunAll(targets, lint, concurrency.value);
    r := Ok(results.value);
  }
}
