/** Parameterised statements as the controllers hand them to the mysql2 pool:
    the SQL text with `?` placeholders and the list of values bound to them. */
module Sql {
  import opened Types

  /** A bound parameter: JavaScript `null`, a number or a string. */
  datatype SqlValue = Null | Int(i: int) | Text(s: string)

  datatype Statement = Statement(sql: string, params: seq<SqlValue>)

  /** What a handler does: the response it sends and every statement it sent
      to the store, in order, reads included. */
  datatype Outcome = Outcome(response: Response, queries: seq<Statement>)

  /** Number of `?` placeholders in a statement text. */
  function Placeholders(s: string): nat
  {
    if s == [] then 0
    else Placeholders(s[..|s| - 1]) + (if s[|s| - 1] == '?' then 1 else 0)
  }

  predicate NoPlaceholder(s: string)
  {
    forall i :: 0 <= i < |s| ==> s[i] != '?'
  }

  lemma {:induction false} PlaceholdersAppend(a: string, b: string)
    ensures Placeholders(a + b) == Placeholders(a) + Placeholders(b)
    decreases |b|
  {
    if b != [] {
      var b' := b[..|b| - 1];
      assert (a + b)[..|a + b| - 1] == a + b';
      PlaceholdersAppend(a, b');
    } else {
      assert a + b == a;
    }
  }

  lemma {:induction false} NoPlaceholderCount(s: string)
    requires NoPlaceholder(s)
    ensures Placeholders(s) == 0
    decreases |s|
  {
    if s != [] {
      NoPlaceholderCount(s[..|s| - 1]);
    }
  }

  lemma NoPlaceholderConcat(a: string, b: string)
    requires NoPlaceholder(a) && NoPlaceholder(b)
    ensures NoPlaceholder(a + b)
  {
  }

  /** `xs.join(sep)` */
  function Join(xs: seq<string>, sep: string): string
  {
    if xs == [] then ""
    else if |xs| == 1 then xs[0]
    else xs[0] + sep + Join(xs[1..], sep)
  }

  lemma {:induction false} JoinNoPlaceholder(xs: seq<string>, sep: string)
    requires NoPlaceholder(sep)
    requires forall k :: 0 <= k < |xs| ==> NoPlaceholder(xs[k])
    ensures NoPlaceholder(Join(xs, sep))
    decreases |xs|
  {
    if |xs| > 1 {
      JoinNoPlaceholder(xs[1..], sep);
    }
  }

  /** `?, ?, …, ?` with n placeholders, as written in a VALUES list. */
  function PlaceholderList(n: nat): string
  {
    if n == 0 then "" else if n == 1 then "?" else "?, " + PlaceholderList(n - 1)
  }

  lemma {:induction false} PlaceholderListCount(n: nat)
    ensures Placeholders(PlaceholderList(n)) == n
  {
    if n > 1 {
      PlaceholderListCount(n - 1);
      PlaceholdersAppend("?, ", PlaceholderList(n - 1));
      assert Placeholders("?, ") == 1 by {
        assert "?, "[..2] == "?,";
        assert "?,"[..1] == "?";
        assert "?"[..0] == "";
      }
    } else if n == 1 {
      assert "?"[..0] == "";
    }
  }

  function DigitChar(d: nat): char
    requires d < 10
  {
    ('0' as int + d) as char
  }

  /** The decimal text JavaScript produces for a non-negative integer. */
  function NatToString(n: nat): (r: string)
    ensures |r| >= 1
    ensures forall k :: 0 <= k < |r| ==> '0' <= r[k] <= '9'
  {
    if n < 10 then [DigitChar(n)] else NatToString(n / 10) + [DigitChar(n % 10)]
  }

  /** Decimal text of an integer, with a leading `-` when negative. */
  function IntToString(i: int): (r: string)
    ensures NoPlaceholder(r)
    ensures |r| >= 1
  {
    if i < 0 then "-" + NatToString(-i) else NatToString(i)
  }

  /** Value of a string of decimal digits. */
  function DigitsValue(s: string): nat
    requires forall k :: 0 <= k < |s| ==> '0' <= s[k] <= '9'
  {
    if s == [] then 0 else 10 * DigitsValue(s[..|s| - 1]) + (s[|s| - 1] as int - '0' as int)
  }

  /** Decimal rendering is faithful: reading the digits back gives the number. */
  lemma {:induction false} NatToStringRoundTrip(n: nat)
    ensures DigitsValue(NatToString(n)) == n
  {
    var r := NatToString(n);
    if n >= 10 {
      NatToStringRoundTrip(n / 10);
      assert r[..|r| - 1] == NatToString(n / 10);
    }
  }

  /** Text JavaScript's template literal `${v}` gives for a bound value. */
  function Render(v: SqlValue): string
  {
    match v
    case Null => "null"
    case Int(i) => IntToString(i)
    case Text(s) => s
  }

  /** `value ?? null` */
  function Nullable(v: Option<string>): (r: SqlValue)
    ensures r == Null <==> v.None?
    ensures v.Some? ==> r == Text(v.value)
  {
    if v.Some? then Text(v.value) else Null
  }

  /** `INSERT INTO <table> (<columns>) VALUES (?, …)` with n placeholders. */
  function InsertText(table: string, columns: seq<string>, n: nat): string
  {
    "INSERT INTO " + table + " (" + Join(columns, ", ") + ") VALUES (" + PlaceholderList(n) + ")"
  }

  lemma InsertTextPlaceholders(table: string, columns: seq<string>, n: nat)
    requires NoPlaceholder(table)
    requires forall k :: 0 <= k < |columns| ==> NoPlaceholder(columns[k])
    ensures Placeholders(InsertText(table, columns, n)) == n
  {
    var cols := Join(columns, ", ");
    var a := "INSERT INTO " + table + " (" + cols + ") VALUES (";
    assert NoPlaceholder(", ");
    JoinNoPlaceholder(columns, ", ");
    assert NoPlaceholder("INSERT INTO ") && NoPlaceholder(" (") && NoPlaceholder(") VALUES (");
    assert NoPlaceholder(a);
    NoPlaceholderCount(a);
    PlaceholderListCount(n);
    assert NoPlaceholder(")");
    NoPlaceholderCount(")");
    PlaceholdersAppend(a, PlaceholderList(n));
    PlaceholdersAppend(a + PlaceholderList(n), ")");
  }
}
