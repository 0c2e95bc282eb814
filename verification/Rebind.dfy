/** Placeholder rebinding: src/server/store/sqlite.go, Rebind. Queries are byte strings. */
module Rebind {
  import opened Wrappers
  import opened Text

  datatype Driver = Postgres | Pgx | Sqlite | OtherDriver(name: string)

  /** Every `?` becomes `$n`, counting from `n` on. */
  function Numbered(query: string, n: nat): string {
    if query == [] then []
    else if query[0] == '?' then ['$'] + Itoa(n) + Numbered(query[1..], n + 1)
    else [query[0]] + Numbered(query[1..], n)
  }

  /** What the first character of a query becomes. */
  function NumberedChar(c: char, n: nat): string {
    if c == '?' then ['$'] + Itoa(n) else [c]
  }

  lemma NumberedStep(query: string, n: nat)
    requires query != []
    ensures Numbered(query, n)
            == NumberedChar(query[0], n) + Numbered(query[1..], if query[0] == '?' then n + 1 else n)
    ensures Marks(query) == (if query[0] == '?' then 1 else 0) + Marks(query[1..])
  {
    hide Itoa;
  }

  lemma {:induction false} NumberedAppend(a: string, c: char, n: nat)
    ensures Numbered(a + [c], n) == Numbered(a, n) + NumberedChar(c, n + Marks(a))
  {
    hide *;
    if a == [] {
      NumberedOne(c, n);
    } else {
      NumberedStep(a + [c], n);
      NumberedStep(a, n);
      var m := if a[0] == '?' then n + 1 else n;
      assert (a + [c])[0] == a[0] && (a + [c])[1..] == a[1..] + [c];
      NumberedAppend(a[1..], c, m);
      Associate(NumberedChar(a[0], n), Numbered(a[1..], m), NumberedChar(c, n + Marks(a)));
    }
  }

  lemma NumberedOne(c: char, n: nat)
    ensures [] + [c] == [c] && Numbered([c], n) == Numbered([], n) + NumberedChar(c, n + Marks([]))
  {
    hide Itoa;
    assert [c][1..] == [];
  }

  /** The number of placeholders. */
  function Marks(query: string): nat {
    if query == [] then 0 else (if query[0] == '?' then 1 else 0) + Marks(query[1..])
  }

  lemma {:induction false} MarksAppend(a: string, c: char)
    ensures Marks(a + [c]) == Marks(a) + if c == '?' then 1 else 0
  {
    if a == [] {
    } else {
      assert (a + [c])[1..] == a[1..] + [c];
      MarksAppend(a[1..], c);
    }
  }

  method Rebind(driver: Driver, query: string) returns (r: string)
    ensures r == if driver == Postgres || driver == Pgx then Numbered(query, 1) else query
  {
    if driver != Postgres && driver != Pgx {
      return query;
    }
    var out := "";
    var n := 1;
    for i := 0 to |query|
      invariant out == Numbered(query[..i], 1) && n == 1 + Marks(query[..i])
    {
      assert query[..i + 1] == query[..i] + [query[i]];
      NumberedAppend(query[..i], query[i], 1);
      MarksAppend(query[..i], query[i]);
      if query[i] == '?' {
        out := out + (['$'] + Itoa(n));
        n := n + 1;
      } else {
        out := out + [query[i]];
      }
    }
    assert query[..|query|] == query;
    return out;
  }

  // ---- What a query with its arguments means ----

  /** Arguments bound in order to the placeholders `?`. */
  function BindMarks(query: string, args: seq<string>): string
    requires |args| >= Marks(query)
  {
    if query == [] then []
    else if query[0] == '?' then args[0] + BindMarks(query[1..], args[1..])
    else [query[0]] + BindMarks(query[1..], args)
  }

  /** The length of the leading run of digits. */
  function DigitRun(s: string): (k: nat)
    ensures k <= |s| && AllDigits(s[..k]) && (k < |s| ==> !IsDigit(s[k]))
  {
    if s == [] || !IsDigit(s[0]) then 0 else
      var k := 1 + DigitRun(s[1..]);
      assert s[..k] == [s[0]] + s[1..][..k - 1];
      k
  }

  /** Argument k bound to every `$k`, k being the longest run of digits; None if there is no argument k. */
  function BindNumbers(query: string, args: seq<string>): Option<string>
    decreases |query|
  {
    if query == [] then Some([])
    else if query[0] == '$' && DigitRun(query[1..]) > 0 then
      var k := DigitRun(query[1..]);
      var number := Value(query[1..][..k]);
      var rest := BindNumbers(query[1 + k..], args);
      if rest.None? || !(1 <= number <= |args|) then None else Some(args[number - 1] + rest.value)
    else
      var rest := BindNumbers(query[1..], args);
      if rest.None? then None else Some([query[0]] + rest.value)
  }

  /** No `?` and no `$` directly before a digit. */
  predicate Clean(query: string) {
    forall i | 0 < i < |query| :: IsDigit(query[i]) ==> query[i - 1] != '?' && query[i - 1] != '$'
  }

  lemma {:induction false} DigitRunAt(digits: string, rest: string)
    requires AllDigits(digits) && (rest == [] || !IsDigit(rest[0]))
    ensures DigitRun(digits + rest) == |digits|
  {
    if digits == [] {
      assert digits + rest == rest;
    } else {
      assert (digits + rest)[1..] == digits[1..] + rest;
      DigitRunAt(digits[1..], rest);
    }
  }

  lemma NumberedStart(query: string, n: nat)
    ensures Numbered(query, n) == [] <==> query == []
    ensures query != [] ==> Numbered(query, n)[0] == if query[0] == '?' then '$' else query[0]
  {}

  /** `$` and a full run of digits is one placeholder. */
  lemma BindDigits(digits: string, rest: string, args: seq<string>)
    requires digits != [] && AllDigits(digits) && (rest == [] || !IsDigit(rest[0]))
    ensures var r, k := BindNumbers(rest, args), Value(digits);
            BindNumbers(['$'] + digits + rest, args)
            == if r.None? || !(1 <= k <= |args|) then None else Some(args[k - 1] + r.value)
  {
    hide *;
    DigitRunAt(digits, rest);
    Slices('$', digits, rest);
    BindFirst(['$'] + digits + rest, args);
  }

  lemma Slices(c: char, a: string, b: string)
    ensures var s := [c] + a + b;
            s[0] == c && s[1..] == a + b && s[1..][..|a|] == a && s[1 + |a|..] == b
  {}

  lemma BindFirst(q: string, args: seq<string>)
    requires q != [] && q[0] == '$' && DigitRun(q[1..]) > 0
    ensures var k := DigitRun(q[1..]);
            var number, r := Value(q[1..][..k]), BindNumbers(q[1 + k..], args);
            BindNumbers(q, args)
            == if r.None? || !(1 <= number <= |args|) then None else Some(args[number - 1] + r.value)
  {
    hide Value, DigitRun;
  }

  lemma CleanTail(query: string)
    requires Clean(query) && query != []
    ensures Clean(query[1..])
  {
    var t := query[1..];
    forall i | 0 < i < |t| && IsDigit(t[i])
      ensures t[i - 1] != '?' && t[i - 1] != '$'
    {
      assert t[i] == query[i + 1] && t[i - 1] == query[i];
    }
  }

  lemma BindMark(query: string, n: nat, bound: string, args: seq<string>)
    requires query != [] && query[0] == '?' && Clean(query) && 1 <= n <= |args|
    requires BindNumbers(Numbered(query[1..], n + 1), args) == Some(bound)
    ensures BindNumbers(Numbered(query, n), args) == Some(args[n - 1] + bound)
  {
    hide BindNumbers;
    NumberedStart(query[1..], n + 1);
    BindDigits(Itoa(n), Numbered(query[1..], n + 1), args);
  }

  lemma BindOther(query: string, n: nat, bound: string, args: seq<string>)
    requires query != [] && query[0] != '?' && Clean(query)
    requires BindNumbers(Numbered(query[1..], n), args) == Some(bound)
    ensures BindNumbers(Numbered(query, n), args) == Some([query[0]] + bound)
  {
    NumberedStart(query[1..], n);
    assert Numbered(query, n)[1..] == Numbered(query[1..], n);
  }

  /** For a clean query the rebound text with numbered arguments is the original with arguments in order. */
  lemma {:induction false} BoundAlike(query: string, done: seq<string>, args: seq<string>)
    requires Clean(query) && |args| >= Marks(query)
    ensures BindNumbers(Numbered(query, |done| + 1), done + args) == Some(BindMarks(query, args))
    decreases |query|
  {
    hide BindNumbers, Numbered, Clean;
    var n := |done| + 1;
    if query == [] {
      EmptyBound(n, done + args);
    } else {
      CleanTail(query);
      if query[0] == '?' {
        BoundAlike(query[1..], done + [args[0]], args[1..]);
        assert done + [args[0]] + args[1..] == done + args;
        BindMark(query, n, BindMarks(query[1..], args[1..]), done + args);
      } else {
        BoundAlike(query[1..], done, args);
        BindOther(query, n, BindMarks(query[1..], args), done + args);
      }
    }
  }

  lemma EmptyBound(n: nat, args: seq<string>)
    ensures BindNumbers(Numbered([], n), args) == Some([])
  {}

  // ---- Only clean queries are bound alike ----

  ghost predicate AllEmpty(args: seq<string>) {
    forall i | 0 <= i < |args| :: args[i] == ""
  }

  lemma {:induction false} EmptyMarks(query: string, args: seq<string>)
    requires AllEmpty(args) && |args| >= Marks(query)
    ensures |BindMarks(query, args)| == |query| - Marks(query)
    decreases |query|
  {
    if query == [] {
    } else {
      EmptyMarks(query[1..], if query[0] == '?' then args[1..] else args);
    }
  }

  /** The query starts with k digits that rebinding leaves alone. */
  ghost predicate DigitsKept(query: string, n: nat, k: nat) {
    && k <= |query| && k <= |Numbered(query, n)|
    && Numbered(query, n)[k..] == Numbered(query[k..], n)
    && Marks(query[k..]) == Marks(query)
    && Numbered(query, n)[..k] == query[..k]
  }

  lemma OneDigitMore(query: string, n: nat, k: nat)
    requires query != [] && IsDigit(query[0]) && DigitsKept(query[1..], n, k)
    ensures DigitsKept(query, n, k + 1)
  {
    var t := query[1..];
    assert Numbered(query, n) == [query[0]] + Numbered(t, n) && Marks(query) == Marks(t);
    hide Marks, IsDigit, Numbered;
    ConsSlices(query[0], Numbered(t, n), k);
    ConsSlices(query[0], t, k);
    assert query == [query[0]] + t;
  }

  /** Leading digits are left as they are. */
  lemma {:induction false} LeadingDigits(query: string, n: nat)
    ensures DigitRun(Numbered(query, n)) == DigitRun(query) && DigitsKept(query, n, DigitRun(query))
  {
    if query != [] && IsDigit(query[0]) {
      LeadingDigits(query[1..], n);
      OneDigitMore(query, n, DigitRun(query[1..]));
      hide DigitsKept, Marks, IsDigit;
      assert Numbered(query, n)[1..] == Numbered(query[1..], n);
    } else {
      assert query[0..] == query;
    }
  }

  lemma ConsSlices(c: char, s: string, k: nat)
    requires k <= |s|
    ensures ([c] + s)[k + 1..] == s[k..] && ([c] + s)[..k + 1] == [c] + s[..k] && ([c] + s)[1..] == s
  {}

  lemma CleanStep(query: string)
    requires query != []
    ensures Clean(query) <==> Clean(query[1..]) && !((query[0] == '?' || query[0] == '$') && DigitRun(query[1..]) > 0)
  {
    var t := query[1..];
    if Clean(query) {
      CleanTail(query);
    }
    if Clean(t) && !((query[0] == '?' || query[0] == '$') && DigitRun(t) > 0) {
      forall i | 0 < i < |query| && IsDigit(query[i])
        ensures query[i - 1] != '?' && query[i - 1] != '$'
      {
        assert query[i] == t[i - 1];
        if i > 1 {
          assert query[i - 1] == t[i - 2];
        }
      }
    }
  }

  /** With empty arguments, a misread placeholder makes the bound text too short. */
  ghost predicate NotLonger(query: string, n: nat, args: seq<string>) {
    var r := BindNumbers(Numbered(query, n), args);
    r.Some? ==> |r.value| <= |query| - Marks(query) && (!Clean(query) ==> |r.value| < |query| - Marks(query))
  }

  /** A query is its leading digits and a rest that starts with none, rebound or not. */
  lemma SplitDigits(t: string, n: nat)
    ensures var k := DigitRun(t);
            var u := Numbered(t[k..], n);
            && Numbered(t, n) == t[..k] + u
            && (u == [] || !IsDigit(u[0]))
            && Marks(t[k..]) == Marks(t)
  {
    hide Numbered, Marks;
    LeadingDigits(t, n);
    NumberedStart(t[DigitRun(t)..], n);
    hide DigitRun;
    var k := DigitRun(t);
    assert Numbered(t, n) == Numbered(t, n)[..k] + Numbered(t, n)[k..];
  }

  lemma NumberedMark(query: string, n: nat)
    requires query != [] && query[0] == '?'
    ensures Numbered(query, n) == ['$'] + Itoa(n) + Numbered(query[1..], n + 1)
    ensures Marks(query) == 1 + Marks(query[1..])
  {
    hide Itoa;
  }

  lemma MarkShape(query: string, n: nat)
    requires query != [] && query[0] == '?'
    ensures var t := query[1..];
            var k := DigitRun(t);
            var u := Numbered(t[k..], n + 1);
            && Numbered(query, n) == ['$'] + (Itoa(n) + t[..k]) + u
            && (u == [] || !IsDigit(u[0]))
            && Marks(query) == 1 + Marks(t[k..])
  {
    hide *;
    var t := query[1..];
    SplitDigits(t, n + 1);
    NumberedMark(query, n);
    Regroup(['$'], Itoa(n), t[..DigitRun(t)], Numbered(t[DigitRun(t)..], n + 1));
  }

  lemma MarkNotLonger(query: string, n: nat, args: seq<string>)
    requires AllEmpty(args) && query != [] && query[0] == '?'
    requires NotLonger(query[1..][DigitRun(query[1..])..], n + 1, args)
    ensures NotLonger(query, n, args)
  {
    var t := query[1..];
    var k := DigitRun(t);
    CleanStep(query);
    MarkShape(query, n);
    hide BindNumbers, Numbered, Clean, Itoa, DigitRun, Marks;
    BindDigits(Itoa(n) + t[..k], Numbered(t[k..], n + 1), args);
    if k == 0 {
      assert t[0..] == t;
    }
  }

  lemma DollarShape(query: string, n: nat)
    requires query != [] && query[0] == '$'
    ensures var t := query[1..];
            var k := DigitRun(t);
            var u := Numbered(t[k..], n);
            && Numbered(query, n) == ['$'] + t[..k] + u
            && (u == [] || !IsDigit(u[0]))
            && Marks(query) == Marks(t[k..])
  {
    var t := query[1..];
    assert Numbered(query, n) == ['$'] + Numbered(t, n) && Marks(query) == Marks(t);
    hide *;
    SplitDigits(t, n);
    assert ['$'] + (t[..DigitRun(t)] + Numbered(t[DigitRun(t)..], n)) == ['$'] + t[..DigitRun(t)] + Numbered(t[DigitRun(t)..], n);
  }

  lemma DollarNotLonger(query: string, n: nat, args: seq<string>)
    requires AllEmpty(args) && query != [] && query[0] == '$' && DigitRun(query[1..]) > 0
    requires NotLonger(query[1..][DigitRun(query[1..])..], n, args)
    ensures NotLonger(query, n, args)
  {
    hide BindNumbers, Numbered, Clean, DigitRun, Marks;
    DollarShape(query, n);
    var t := query[1..];
    BindDigits(t[..DigitRun(t)], Numbered(t[DigitRun(t)..], n), args);
  }

  lemma OtherNotLonger(query: string, n: nat, args: seq<string>)
    requires query != [] && query[0] != '?' && !(query[0] == '$' && DigitRun(query[1..]) > 0)
    requires NotLonger(query[1..], n, args)
    ensures NotLonger(query, n, args)
  {
    CleanStep(query);
    LeadingDigits(query[1..], n);
    hide Clean, DigitRun;
    assert Numbered(query, n)[1..] == Numbered(query[1..], n);
  }

  lemma {:induction false} Shorter(query: string, n: nat, args: seq<string>)
    requires AllEmpty(args)
    ensures NotLonger(query, n, args)
    decreases |query|
  {
    if query == [] {
      EmptyBound(n, args);
    } else {
      hide NotLonger;
      var t := query[1..];
      if query[0] == '?' {
        Shorter(t[DigitRun(t)..], n + 1, args);
        MarkNotLonger(query, n, args);
      } else if query[0] == '$' && DigitRun(t) > 0 {
        Shorter(t[DigitRun(t)..], n, args);
        DollarNotLonger(query, n, args);
      } else {
        Shorter(t, n, args);
        OtherNotLonger(query, n, args);
      }
    }
  }

  /** Rebinding keeps a query's meaning, for every choice of arguments, exactly when the query has
      no `?` and no `$` directly before a digit. */
  lemma RebindFaithful(query: string)
    ensures (forall args: seq<string> | |args| == Marks(query) ::
               BindNumbers(Numbered(query, 1), args) == Some(BindMarks(query, args)))
            <==> Clean(query)
  {
    if Clean(query) {
      forall args: seq<string> | |args| == Marks(query)
        ensures BindNumbers(Numbered(query, 1), args) == Some(BindMarks(query, args))
      {
        BoundAlike(query, [], args);
        assert [] + args == args;
      }
    } else {
      var args := seq(Marks(query), _ => "");
      Shorter(query, 1, args);
      EmptyMarks(query, args);
      assert BindNumbers(Numbered(query, 1), args) != Some(BindMarks(query, args));
    }
  }
}
