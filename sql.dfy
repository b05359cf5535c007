/** SQL text as both CRUD engines build it: backtick-quoted identifiers,
    comma-joined lists and `%s` positional placeholders, paired with the
    parameter tuple the driver substitutes for them. */
module Sql {
  import opened Values

  /** What `execute(sql, params)` / `select_rows(sql, params)` receive. */
  datatype Statement = Statement(text: string, params: seq<Value>)

  /** The `%s` placeholder the MySQL driver substitutes a parameter for. */
  const Placeholder := "%s"

  /** f"`{name}`": an identifier spliced into SQL text, unescaped. */
  function Quote(name: string): string
  {
    "`" + name + "`"
  }

  /** The number of `%s` placeholders in `s`, scanning left to right as the
      driver does. */
  function Occurrences(s: string): nat
    decreases |s|
  {
    if |s| < 2 then 0
    else if s[0] == '%' && s[1] == 's' then 1 + Occurrences(s[2..])
    else Occurrences(s[1..])
  }

  /** `s` holds no `%` at all, so it can neither be nor start a placeholder. */
  predicate PercentFree(s: string)
  {
    forall i :: 0 <= i < |s| ==> s[i] != '%'
  }

  /** `s` does not end in `%`, so nothing appended to it can complete a
      placeholder that straddles the boundary. */
  predicate EndsSafe(s: string)
  {
    s == [] || s[|s| - 1] != '%'
  }

  /** The total number of placeholders in a list of fragments. */
  function SumOccurrences(parts: seq<string>): nat
    decreases |parts|
  {
    if parts == [] then 0 else Occurrences(parts[0]) + SumOccurrences(parts[1..])
  }

  lemma {:induction false} PercentFreeHasNone(s: string)
    requires PercentFree(s)
    ensures Occurrences(s) == 0 && EndsSafe(s)
    decreases |s|
  {
    if |s| >= 2 {
      PercentFreeHasNone(s[1..]);
    }
  }

  /** Counting placeholders distributes over a concatenation whose left part
      does not end in `%`. */
  lemma {:induction false} OccurrencesConcat(a: string, b: string)
    requires EndsSafe(a)
    ensures Occurrences(a + b) == Occurrences(a) + Occurrences(b)
    decreases |a|
  {
    if |a| == 0 {
      assert a + b == b;
    } else if |a| == 1 {
      if |b| >= 1 {
        assert (a + b)[1..] == b;
      }
    } else if a[0] == '%' && a[1] == 's' {
      assert (a + b)[2..] == a[2..] + b;
      OccurrencesConcat(a[2..], b);
    } else {
      assert (a + b)[1..] == a[1..] + b;
      OccurrencesConcat(a[1..], b);
    }
  }

  /** Joining with a `%`-free separator neither adds nor loses a placeholder. */
  lemma {:induction false} OccurrencesJoin(sep: string, parts: seq<string>)
    requires PercentFree(sep) && EndsSafe(sep)
    requires forall i :: 0 <= i < |parts| ==> EndsSafe(parts[i])
    ensures Occurrences(Join(sep, parts)) == SumOccurrences(parts)
    decreases |parts|
  {
    if |parts| == 1 {
      assert SumOccurrences(parts[1..]) == 0;
    } else if |parts| > 1 {
      var rest := Join(sep, parts[1..]);
      assert parts[0] + sep + rest == parts[0] + (sep + rest);
      OccurrencesConcat(parts[0], sep + rest);
      OccurrencesConcat(sep, rest);
      PercentFreeHasNone(sep);
      OccurrencesJoin(sep, parts[1..]);
    }
  }

  lemma PlaceholderCount()
    ensures Occurrences(Placeholder) == 1
  {
    assert Placeholder[2..] == [];
  }

  /** A quoted `%`-free identifier holds no placeholder and is safe to
      extend. */
  lemma QuotedIdentifier(name: string)
    requires PercentFree(name)
    ensures PercentFree(Quote(name)) && EndsSafe(Quote(name))
    ensures Occurrences(Quote(name)) == 0
  {
    PercentFreeHasNone(Quote(name));
  }

  /** The fragment `` `c`=%s `` holds exactly one placeholder. */
  lemma AssignmentFragment(name: string)
    requires PercentFree(name)
    ensures EndsSafe(Quote(name) + "=%s")
    ensures Occurrences(Quote(name) + "=%s") == 1
  {
    var q := Quote(name);
    QuotedIdentifier(name);
    assert q + "=%s" == (q + "=") + Placeholder;
    PercentFreeHasNone(q + "=");
    OccurrencesConcat(q + "=", Placeholder);
    PlaceholderCount();
  }

  /** Concatenating two fragments that are safe to extend: the counts add
      and the result is safe to extend too. */
  lemma Append(a: string, b: string)
    requires EndsSafe(a) && EndsSafe(b)
    ensures Occurrences(a + b) == Occurrences(a) + Occurrences(b)
    ensures EndsSafe(a + b)
  {
    OccurrencesConcat(a, b);
    if b == [] {
      assert a + b == a;
    }
  }

  lemma {:induction false} SumOccurrencesUniform(parts: seq<string>, k: nat)
    requires forall i :: 0 <= i < |parts| ==> Occurrences(parts[i]) == k
    ensures SumOccurrences(parts) == k * |parts|
    decreases |parts|
  {
    if parts != [] {
      SumOccurrencesUniform(parts[1..], k);
    }
  }

  lemma {:induction false} JoinEndsSafe(sep: string, parts: seq<string>)
    requires EndsSafe(sep)
    requires forall i :: 0 <= i < |parts| ==> EndsSafe(parts[i])
    ensures EndsSafe(Join(sep, parts))
    decreases |parts|
  {
    if |parts| > 1 {
      JoinEndsSafe(sep, parts[1..]);
      Append(parts[0], sep);
      Append(parts[0] + sep, Join(sep, parts[1..]));
    }
  }

  /** Joining fragments that each hold `k` placeholders with `", "`. */
  lemma JoinUniform(parts: seq<string>, k: nat)
    requires forall i :: 0 <= i < |parts| ==> EndsSafe(parts[i]) && Occurrences(parts[i]) == k
    ensures Occurrences(Join(", ", parts)) == k * |parts|
    ensures EndsSafe(Join(", ", parts))
  {
    PercentFreeHasNone(", ");
    OccurrencesJoin(", ", parts);
    SumOccurrencesUniform(parts, k);
    JoinEndsSafe(", ", parts);
  }

  /** `` ", ".join(f"`{c}`" for c in names) ``. */
  function ColumnList(names: seq<string>): string
  {
    Join(", ", seq(|names|, i requires 0 <= i < |names| => Quote(names[i])))
  }

  /** `", ".join(["%s"] * n)`. */
  function PlaceholderList(n: nat): string
  {
    Join(", ", seq(n, i => Placeholder))
  }

  /** `` ", ".join(f"`{c}`=%s" for c in names) ``. */
  function Assignments(names: seq<string>): string
  {
    Join(", ", seq(|names|, i requires 0 <= i < |names| => Quote(names[i]) + "=%s"))
  }

  predicate AllPercentFree(names: seq<string>)
  {
    forall i :: 0 <= i < |names| ==> PercentFree(names[i])
  }

  /** A column list of `%`-free names holds no placeholder. */
  lemma ColumnListCount(names: seq<string>)
    requires AllPercentFree(names)
    ensures Occurrences(ColumnList(names)) == 0 && EndsSafe(ColumnList(names))
  {
    var parts := seq(|names|, i requires 0 <= i < |names| => Quote(names[i]));
    forall i | 0 <= i < |parts| ensures EndsSafe(parts[i]) && Occurrences(parts[i]) == 0 {
      QuotedIdentifier(names[i]);
    }
    JoinUniform(parts, 0);
  }

  /** A list of `n` placeholders holds exactly `n` of them. */
  lemma PlaceholderListCount(n: nat)
    ensures Occurrences(PlaceholderList(n)) == n && EndsSafe(PlaceholderList(n))
  {
    PlaceholderCount();
    JoinUniform(seq(n, i => Placeholder), 1);
  }

  /** A SET clause holds one placeholder per assigned column. */
  lemma AssignmentsCount(names: seq<string>)
    requires AllPercentFree(names)
    ensures Occurrences(Assignments(names)) == |names| && EndsSafe(Assignments(names))
  {
    var parts := seq(|names|, i requires 0 <= i < |names| => Quote(names[i]) + "=%s");
    forall i | 0 <= i < |parts| ensures EndsSafe(parts[i]) && Occurrences(parts[i]) == 1 {
      AssignmentFragment(names[i]);
    }
    JoinUniform(parts, 1);
  }

  /** `` WHERE `pk`=%s ``: the condition of every statement on one row. */
  function WherePk(pk: string): string
  {
    " WHERE " + Quote(pk) + "=" + Placeholder
  }

  /** `` INSERT INTO `t` (`a`, `b`) VALUES (%s, %s) ``. */
  function InsertInto(table: string, cols: seq<string>): string
  {
    "INSERT INTO " + Quote(table) + " (" + ColumnList(cols) + ") VALUES (" + PlaceholderList(|cols|) + ")"
  }

  /** `` UPDATE `t` SET `a`=%s, `b`=%s WHERE `pk`=%s ``. */
  function UpdateSet(table: string, cols: seq<string>, pk: string): string
  {
    "UPDATE " + Quote(table) + " SET " + Assignments(cols) + WherePk(pk)
  }

  /** `` DELETE FROM `t` WHERE `pk`=%s ``. */
  function DeleteFrom(table: string, pk: string): string
  {
    "DELETE FROM " + Quote(table) + WherePk(pk)
  }

  lemma WherePkCount(pk: string)
    requires PercentFree(pk)
    ensures Occurrences(WherePk(pk)) == 1 && EndsSafe(WherePk(pk))
  {
    QuotedIdentifier(pk);
    PercentFreeHasNone(" WHERE ");
    PercentFreeHasNone("=");
    PlaceholderCount();
    Append(" WHERE ", Quote(pk));
    Append(" WHERE " + Quote(pk), "=");
    Append(" WHERE " + Quote(pk) + "=", Placeholder);
  }

  /** A closing `;` adds no placeholder. */
  lemma Terminated(s: string)
    requires EndsSafe(s)
    ensures Occurrences(s + ";") == Occurrences(s) && EndsSafe(s + ";")
  {
    PercentFreeHasNone(";");
    Append(s, ";");
  }

  /** The INSERT holds one placeholder per column. */
  lemma InsertIntoCount(table: string, cols: seq<string>)
    requires PercentFree(table) && AllPercentFree(cols)
    ensures Occurrences(InsertInto(table, cols)) == |cols| && EndsSafe(InsertInto(table, cols))
  {
    var head := "INSERT INTO " + Quote(table) + " (" + ColumnList(cols);
    var p := PlaceholderList(|cols|);
    InsertHeadCount(table, cols);
    PlaceholderListCount(|cols|);
    PercentFreeHasNone(") VALUES (");
    PercentFreeHasNone(")");
    Append(head, ") VALUES (");
    Append(head + ") VALUES (", p);
    Append(head + ") VALUES (" + p, ")");
  }

  lemma InsertHeadCount(table: string, cols: seq<string>)
    requires PercentFree(table) && AllPercentFree(cols)
    ensures var head := "INSERT INTO " + Quote(table) + " (" + ColumnList(cols);
            Occurrences(head) == 0 && EndsSafe(head)
  {
    var q, c := Quote(table), ColumnList(cols);
    QuotedIdentifier(table);
    ColumnListCount(cols);
    PercentFreeHasNone("INSERT INTO ");
    PercentFreeHasNone(" (");
    Append("INSERT INTO ", q);
    Append("INSERT INTO " + q, " (");
    Append("INSERT INTO " + q + " (", c);
  }

  /** The UPDATE holds one placeholder per assigned column and one for the pk. */
  lemma UpdateSetCount(table: string, cols: seq<string>, pk: string)
    requires PercentFree(table) && PercentFree(pk) && AllPercentFree(cols)
    ensures Occurrences(UpdateSet(table, cols, pk)) == |cols| + 1 && EndsSafe(UpdateSet(table, cols, pk))
  {
    var q, a := Quote(table), Assignments(cols);
    QuotedIdentifier(table);
    AssignmentsCount(cols);
    WherePkCount(pk);
    PercentFreeHasNone("UPDATE ");
    PercentFreeHasNone(" SET ");
    Append("UPDATE ", q);
    Append("UPDATE " + q, " SET ");
    Append("UPDATE " + q + " SET ", a);
    Append("UPDATE " + q + " SET " + a, WherePk(pk));
  }

  /** The DELETE holds the one pk placeholder. */
  lemma DeleteFromCount(table: string, pk: string)
    requires PercentFree(table) && PercentFree(pk)
    ensures Occurrences(DeleteFrom(table, pk)) == 1 && EndsSafe(DeleteFrom(table, pk))
  {
    QuotedIdentifier(table);
    WherePkCount(pk);
    PercentFreeHasNone("DELETE FROM ");
    Append("DELETE FROM ", Quote(table));
    Append("DELETE FROM " + Quote(table), WherePk(pk));
  }
}
