/** The string checks of the zod schemas the controllers parse request
    bodies with. zod runs the checks of a `z.string()` in the order they are
    declared, and `.trim()` replaces the value at its position in that list,
    so a check declared before `.trim()` sees the untrimmed text. E-mail and
    URL syntax are decided by zod's own patterns and stay abstract here. */
module Schema {
  import opened Types

  datatype Check = MinLength(n: nat) | MaxLength(n: nat) | NonEmpty | Trim | Email | Url

  /** zod's e-mail and URL recognisers. */
  datatype Formats = Formats(isEmail: string -> bool, isUrl: string -> bool)

  /** Outcome of parsing one field: rejected, or the value zod hands back. */
  datatype Parsed<+T> = Invalid | Valid(value: T)

  /** The characters `String.prototype.trim` removes: the white space and line
      terminator code points of ECMAScript. */
  predicate IsJsSpace(c: char)
  {
    var n := c as int;
    n == 0x09 || n == 0x0A || n == 0x0B || n == 0x0C || n == 0x0D || n == 0x20 ||
    n == 0xA0 || n == 0x1680 || (0x2000 <= n <= 0x200A) || n == 0x2028 || n == 0x2029 ||
    n == 0x202F || n == 0x205F || n == 0x3000 || n == 0xFEFF
  }

  function TrimStart(s: string): (r: string)
    ensures |r| <= |s| && r == s[|s| - |r|..]
    ensures r == [] || !IsJsSpace(r[0])
    ensures forall k :: 0 <= k < |s| - |r| ==> IsJsSpace(s[k])
  {
    if s != [] && IsJsSpace(s[0]) then TrimStart(s[1..]) else s
  }

  function TrimEnd(s: string): (r: string)
    ensures |r| <= |s| && r == s[..|r|]
    ensures r == [] || !IsJsSpace(r[|r| - 1])
    ensures forall k :: |r| <= k < |s| ==> IsJsSpace(s[k])
  {
    if s != [] && IsJsSpace(s[|s| - 1]) then TrimEnd(s[..|s| - 1]) else s
  }

  /** `s.trim()` */
  function TrimText(s: string): string
  {
    TrimEnd(TrimStart(s))
  }

  /** `s.length` in JavaScript: the number of UTF-16 code units, so a
      character outside the Basic Multilingual Plane counts twice. */
  function JsLength(s: string): (n: nat)
    ensures |s| <= n <= 2 * |s|
  {
    if s == [] then 0 else JsLength(s[..|s| - 1]) + (if s[|s| - 1] as int < 0x10000 then 1 else 2)
  }

  /** Text of Basic Multilingual Plane characters has one unit per character. */
  lemma {:induction false} JsLengthBmp(s: string)
    requires forall k :: 0 <= k < |s| ==> s[k] as int < 0x10000
    ensures JsLength(s) == |s|
  {
    if s != [] {
      JsLengthBmp(s[..|s| - 1]);
    }
  }

  /** Text of characters outside that plane has two units per character. */
  lemma {:induction false} JsLengthAstral(s: string)
    requires forall k :: 0 <= k < |s| ==> s[k] as int >= 0x10000
    ensures JsLength(s) == 2 * |s|
  {
    if s != [] {
      JsLengthAstral(s[..|s| - 1]);
    }
  }

  /** Whether a non-mutating check accepts `s`. zod compares lengths with
      `s.length`, counted in UTF-16 units. */
  predicate Accepts(c: Check, s: string, f: Formats)
  {
    match c
    case MinLength(n) => JsLength(s) >= n
    case MaxLength(n) => JsLength(s) <= n
    case NonEmpty => JsLength(s) >= 1
    case Trim => true
    case Email => f.isEmail(s)
    case Url => f.isUrl(s)
  }

  /** Run the checks of one `z.string()` in declaration order. */
  function RunChecks(checks: seq<Check>, s: string, f: Formats): Parsed<string>
  {
    if checks == [] then Valid(s)
    else if checks[0] == Trim then RunChecks(checks[1..], TrimText(s), f)
    else if Accepts(checks[0], s, f) then RunChecks(checks[1..], s, f)
    else Invalid
  }

  /** A required string field: a missing key is rejected. */
  function Required(checks: seq<Check>, v: Option<string>, f: Formats): Parsed<string>
  {
    match v
    case None => Invalid
    case Some(s) => RunChecks(checks, s, f)
  }

  /** An `.optional()` string field: a missing key stays missing. */
  function Optional(checks: seq<Check>, v: Option<string>, f: Formats): Parsed<Option<string>>
  {
    match v
    case None => Valid(None)
    case Some(s) =>
      match RunChecks(checks, s, f)
      case Invalid => Invalid
      case Valid(t) => Valid(Some(t))
  }

  /** Trimming removes exactly the leading and trailing white space: what is
      left is a contiguous part of the input and everything cut off is white space. */
  lemma TrimTextShape(s: string)
    ensures var i, r := |s| - |TrimStart(s)|, TrimText(s);
      i + |r| <= |s| && r == s[i..i + |r|] &&
      (forall k :: 0 <= k < i ==> IsJsSpace(s[k])) &&
      (forall k :: i + |r| <= k < |s| ==> IsJsSpace(s[k]))
  {
    var t := TrimStart(s);
    var r := TrimEnd(t);
    var i := |s| - |t|;
    SliceOfSuffix(s, t, r, i);
    TrimEndTail(s, t, r, i);
  }

  lemma SliceOfSuffix(s: string, t: string, r: string, i: nat)
    requires i <= |s| && t == s[i..] && |r| <= |t| && r == t[..|r|]
    ensures i + |r| <= |s| && r == s[i..i + |r|]
  {
  }

  lemma TrimEndTail(s: string, t: string, r: string, i: nat)
    requires i <= |s| && t == s[i..] && r == TrimEnd(t)
    ensures forall k :: i + |r| <= k < |s| ==> IsJsSpace(s[k])
  {
    forall k | i + |r| <= k < |s| ensures IsJsSpace(s[k]) {
      assert s[k] == t[k - i];
    }
  }

  /** What trimming leaves neither starts nor ends with white space. */
  lemma TrimTextEdges(s: string)
    ensures var r := TrimText(s); r == [] || (!IsJsSpace(r[0]) && !IsJsSpace(r[|r| - 1]))
  {
    var t := TrimStart(s);
    var r := TrimEnd(t);
    if r != [] {
      assert r[0] == t[0];
    }
  }

  /** Trimming twice is trimming once. */
  lemma TrimTextIdempotent(s: string)
    ensures TrimText(TrimText(s)) == TrimText(s)
  {
    var r := TrimText(s);
    var t := TrimStart(s);
    if r != [] {
      assert r[0] == t[0];
      assert TrimStart(r) == r;
    }
  }

  /** Whether every check of a list accepts `s`. */
  predicate AllAccept(checks: seq<Check>, s: string, f: Formats)
  {
    forall k :: 0 <= k < |checks| ==> Accepts(checks[k], s, f)
  }

  /** A list of checks accepts when its first check and the rest accept. */
  lemma AllAcceptCons(checks: seq<Check>, s: string, f: Formats)
    requires checks != []
    ensures AllAccept(checks, s, f) <==> Accepts(checks[0], s, f) && AllAccept(checks[1..], s, f)
  {
    if Accepts(checks[0], s, f) && AllAccept(checks[1..], s, f) {
      forall k | 0 <= k < |checks| ensures Accepts(checks[k], s, f) {
        if k > 0 { assert checks[k] == checks[1..][k - 1]; }
      }
    }
    if AllAccept(checks, s, f) {
      forall k | 0 <= k < |checks[1..]| ensures Accepts(checks[1..][k], s, f) {
        assert checks[1..][k] == checks[k + 1];
      }
    }
  }

  lemma NoTrimInTail(checks: seq<Check>)
    requires checks != [] && Trim !in checks
    ensures checks[0] != Trim && Trim !in checks[1..]
  {
    assert checks[0] in checks;
    forall c | c in checks[1..] ensures c != Trim { assert c in checks; }
  }

  /** Without `.trim()`, a field passes when every check accepts it, and
      comes back unchanged. */
  lemma {:induction false} RunChecksPlain(checks: seq<Check>, s: string, f: Formats)
    requires Trim !in checks
    ensures RunChecks(checks, s, f) == if AllAccept(checks, s, f) then Valid(s) else Invalid
  {
    if checks != [] {
      NoTrimInTail(checks);
      RunChecksPlain(checks[1..], s, f);
      AllAcceptCons(checks, s, f);
    }
  }

  /** With one `.trim()`, the checks before it see the text as sent, the
      checks after it see the trimmed text, and the trimmed text is kept. */
  lemma {:induction false} RunChecksTrimmed(before: seq<Check>, after: seq<Check>, s: string, f: Formats)
    requires Trim !in before && Trim !in after
    ensures RunChecks(before + [Trim] + after, s, f) ==
      if AllAccept(before, s, f) && AllAccept(after, TrimText(s), f) then Valid(TrimText(s)) else Invalid
  {
    var all := before + [Trim] + after;
    if before == [] {
      assert all == [Trim] + after;
      assert all[1..] == after;
      RunChecksPlain(after, TrimText(s), f);
    } else {
      NoTrimInTail(before);
      assert all[0] == before[0];
      assert all[1..] == before[1..] + [Trim] + after;
      RunChecksTrimmed(before[1..], after, s, f);
      AllAcceptCons(before, s, f);
    }
  }

  /** Text made only of white space trims to the empty string. */
  lemma {:induction false} TrimBlank(s: string)
    requires forall k :: 0 <= k < |s| ==> IsJsSpace(s[k])
    ensures TrimText(s) == []
  {
    if s != [] {
      TrimBlank(s[1..]);
    }
  }
}
