/** The brace scanner that decides whether two lines of a Java file share a method body. */
module BraceScopes {

  // ---- Brace events of a file -------------------------------------------------------

  /** One brace, with its 1-based line; `header` marks an opening line like a method's. */
  datatype Event = Open(line: nat, header: bool) | Close(line: nat)

  /** A stack entry of the scanner: the line of a `{` and whether it looks like a method's. */
  datatype Opening = Opening(line: nat, header: bool)

  /** A recorded scope: the lines of a `{` and of the `}` closing it. */
  datatype Scope = Scope(start: nat, end: nat)

  function Count(line: string, c: char): nat
  {
    if line == [] then 0 else (if line[0] == c then 1 else 0) + Count(line[1..], c)
  }

  predicate MethodHeader(lines: seq<string>, i: nat)
    requires i < |lines|
  {
    && '(' in lines[i] && ')' in lines[i]
    && ('{' in lines[i] || (i + 1 < |lines| && '{' in lines[i + 1]))
  }

  function LineEvents(lines: seq<string>, i: nat): seq<Event>
    requires i < |lines|
  {
    seq(Count(lines[i], '{'), _ => Open(i + 1, MethodHeader(lines, i))) +
    seq(Count(lines[i], '}'), _ => Close(i + 1))
  }

  /** The braces of the first `n` lines; within a line every `{` comes before any `}`. */
  function Events(lines: seq<string>, n: nat): seq<Event>
    requires n <= |lines|
  {
    if n == 0 then [] else Events(lines, n - 1) + LineEvents(lines, n - 1)
  }

  lemma {:induction false} EventsPrefix(lines: seq<string>, i: nat, n: nat)
    requires i <= n <= |lines|
    ensures |Events(lines, i)| <= |Events(lines, n)|
    ensures Events(lines, n)[..|Events(lines, i)|] == Events(lines, i)
  {
    if i < n { EventsPrefix(lines, i, n - 1); }
  }

  /** Events `base` up to `next` of `e` are the `{` of line `i`, then its `}`. */
  ghost predicate LineAt(lines: seq<string>, i: nat, e: seq<Event>, base: nat, next: nat)
    requires i < |lines|
  {
    var opens, closes := Count(lines[i], '{'), Count(lines[i], '}');
    && next == base + opens + closes <= |e|
    && (forall j | base <= j < base + opens :: e[j] == Open(i + 1, MethodHeader(lines, i)))
    && (forall j | base + opens <= j < next :: e[j] == Close(i + 1))
  }

  lemma LineLayout(lines: seq<string>, i: nat)
    requires i < |lines|
    ensures LineAt(lines, i, Events(lines, |lines|), |Events(lines, i)|, |Events(lines, i + 1)|)
  {
    var e, upTo := Events(lines, |lines|), Events(lines, i + 1);
    EventsPrefix(lines, i + 1, |lines|);
    assert forall j | 0 <= j < |upTo| :: e[j] == upTo[j];
  }

  ghost predicate LineOrdered(e: seq<Event>)
  {
    forall a, b | 0 <= a < b < |e| ::
      e[a].line <= e[b].line && (e[a].Close? && e[b].Open? ==> e[a].line < e[b].line)
  }

  lemma {:induction false} EventsOrdered(lines: seq<string>, n: nat)
    requires n <= |lines|
    ensures LineOrdered(Events(lines, n))
    ensures forall a | 0 <= a < |Events(lines, n)| :: Events(lines, n)[a].line <= n
  {
    if n > 0 { EventsOrdered(lines, n - 1); }
  }

  // ---- Matching braces, without a stack ---------------------------------------------

  /** Opening minus closing braces among events `p` up to, not including, `r`. */
  function Level(e: seq<Event>, p: nat, r: nat): int
    requires r <= |e|
  {
    if r <= p then 0 else Level(e, p, r - 1) + (if e[r - 1].Open? then 1 else -1)
  }

  lemma {:induction false} LevelSplit(e: seq<Event>, a: nat, b: nat, c: nat)
    requires a <= b <= c <= |e|
    ensures Level(e, a, c) == Level(e, a, b) + Level(e, b, c)
  {
    if b < c { LevelSplit(e, a, b, c - 1); }
  }

  predicate Above(e: seq<Event>, p: nat, r: nat)
    requires r <= |e|
  {
    Level(e, p, r) > 0
  }

  /** The brace at `p` is still open just before event `n`. */
  ghost predicate Pending(e: seq<Event>, p: nat, n: nat)
    requires n <= |e|
  {
    p < n && e[p].Open? && forall r | p < r <= n :: Above(e, p, r)
  }

  /** The `{` at `p` is closed by the `}` at `q`: balanced between, never closed before. */
  ghost predicate Matched(e: seq<Event>, p: nat, q: nat)
  {
    q < |e| && Pending(e, p, q) && Level(e, p, q + 1) == 0
  }

  lemma ClosedOnce(e: seq<Event>, p: nat, q: nat, q': nat)
    requires Matched(e, p, q) && Matched(e, p, q')
    ensures q == q'
  {
    var above, above' := Above(e, p, q + 1), Above(e, p, q' + 1);
    assert !above && !above';
  }

  /** Matched brace pairs are nested or lie on disjoint lines. */
  lemma Laminar(e: seq<Event>, p: nat, q: nat, p': nat, q': nat)
    requires LineOrdered(e) && Matched(e, p, q) && Matched(e, p', q') && p <= p'
    ensures (p == p' && q == q') || (p < p' && q' < q) || e[q].line < e[p'].line
  {
    assert Above(e, p, q) && Above(e, p', q');
    assert e[q].Close? && e[q'].Close?;
    if p == p' {
      ClosedOnce(e, p, q, q');
    } else if p' < q {
      LevelSplit(e, p, p', q + 1);
      assert Above(e, p, p') && !Above(e, p', q + 1);
    }
  }

  ghost predicate Covers(e: seq<Event>, p: nat, q: nat, x: nat, y: nat)
  {
    && Matched(e, p, q)
    && e[p].header
    && e[p].line <= x <= e[q].line && e[p].line <= y <= e[q].line
  }

  /** Some brace pair opened by a method-like line spans both lines. */
  ghost predicate ShareScope(e: seq<Event>, x: nat, y: nat)
  {
    exists p, q :: Covers(e, p, q, x, y)
  }

  lemma ShareScopeSymmetric(lines: seq<string>, x: nat, y: nat)
    requires ShareScope(Events(lines, |lines|), x, y)
    ensures ShareScope(Events(lines, |lines|), y, x)
  {
    var e := Events(lines, |lines|);
    var p, q :| Covers(e, p, q, x, y);
    assert Covers(e, p, q, y, x);
  }

  lemma ShareScopeTransitive(lines: seq<string>, x: nat, y: nat, z: nat)
    requires ShareScope(Events(lines, |lines|), x, y) && ShareScope(Events(lines, |lines|), y, z)
    ensures ShareScope(Events(lines, |lines|), x, z)
  {
    var e := Events(lines, |lines|);
    EventsOrdered(lines, |lines|);
    var p, q :| Covers(e, p, q, x, y);
    var p', q' :| Covers(e, p', q', y, z);
    if p <= p' {
      Laminar(e, p, q, p', q');
      assert Covers(e, p, q, x, z);
    } else {
      Laminar(e, p', q', p, q);
      assert Covers(e, p', q', x, z);
    }
  }

  // ---- The stack scan ----------------------------------------------------------------

  datatype State = State(stack: seq<Opening>, scopes: seq<Scope>)

  /** What one brace does to the scanner's stack and to its list of method-like scopes. */
  function Step(s: State, brace: Event): State
  {
    match brace
    case Open(line, header) => State(s.stack + [Opening(line, header)], s.scopes)
    case Close(line) =>
      if s.stack == [] then s else
        var top := s.stack[|s.stack| - 1];
        State(s.stack[..|s.stack| - 1], if top.header then s.scopes + [Scope(top.line, line)] else s.scopes)
  }

  function After(e: seq<Event>, n: nat): State
    requires n <= |e|
  {
    if n == 0 then State([], []) else Step(After(e, n - 1), e[n - 1])
  }

  /** `p` is the brace behind entry `k` of the stack before event `n`. */
  ghost predicate Behind(e: seq<Event>, n: nat, k: nat, p: nat)
  {
    && n <= |e| && k < |After(e, n).stack| && Pending(e, p, n)
    && Level(e, p, n) == |After(e, n).stack| - k
    && e[p] == Open(After(e, n).stack[k].line, After(e, n).stack[k].header)
  }

  /** Every stack entry stands for a pending brace, its level the distance from the top. */
  lemma {:induction false} OpenSound(e: seq<Event>, n: nat, k: nat) returns (p: nat)
    requires n <= |e| && k < |After(e, n).stack|
    ensures Behind(e, n, k, p)
  {
    if k < |After(e, n - 1).stack| {
      p := OpenSound(e, n - 1, k);
    } else {
      p := n - 1;
    }
  }

  /** Every pending brace has its stack entry. */
  lemma {:induction false} OpenComplete(e: seq<Event>, n: nat, p: nat) returns (k: nat)
    requires n <= |e| && Pending(e, p, n)
    ensures Behind(e, n, k, p)
  {
    if p == n - 1 {
      k := |After(e, n - 1).stack|;
    } else {
      assert Pending(e, p, n - 1);
      k := OpenComplete(e, n - 1, p);
      assert Above(e, p, n);
    }
  }

  lemma {:induction false} ScopeSound(e: seq<Event>, n: nat, i: nat) returns (p: nat, q: nat)
    requires n <= |e| && i < |After(e, n).scopes|
    ensures q < n && Matched(e, p, q) && e[p].header
    ensures After(e, n).scopes[i] == Scope(e[p].line, e[q].line)
  {
    if i < |After(e, n - 1).scopes| {
      p, q := ScopeSound(e, n - 1, i);
    } else {
      p := OpenSound(e, n - 1, |After(e, n - 1).stack| - 1);
      q := n - 1;
    }
  }

  lemma {:induction false} ScopeComplete(e: seq<Event>, n: nat, p: nat, q: nat) returns (i: nat)
    requires q < n <= |e| && Matched(e, p, q) && e[p].header
    ensures i < |After(e, n).scopes| && After(e, n).scopes[i] == Scope(e[p].line, e[q].line)
  {
    if q < n - 1 {
      i := ScopeComplete(e, n - 1, p, q);
    } else {
      assert Above(e, p, q);
      var k := OpenComplete(e, q, p);
      i := |After(e, q).scopes|;
    }
  }

  predicate Spans(scope: Scope, x: nat, y: nat)
  {
    scope.start <= x <= scope.end && scope.start <= y <= scope.end
  }

  /** Some scope of the list spans both lines. */
  predicate AnySpans(scopes: seq<Scope>, x: nat, y: nat)
  {
    exists i | 0 <= i < |scopes| :: Spans(scopes[i], x, y)
  }

  /** The recorded scopes decide `ShareScope` for any two lines. */
  lemma ScopesDecide(e: seq<Event>, x: nat, y: nat)
    ensures ShareScope(e, x, y) <==> AnySpans(After(e, |e|).scopes, x, y)
  {
    var scopes := After(e, |e|).scopes;
    if i :| 0 <= i < |scopes| && Spans(scopes[i], x, y) {
      var p, q := ScopeSound(e, |e|, i);
      assert Covers(e, p, q, x, y);
    }
    if ShareScope(e, x, y) {
      var p, q :| Covers(e, p, q, x, y);
      var i := ScopeComplete(e, |e|, p, q);
      assert Spans(scopes[i], x, y);
    }
  }

  lemma FileLayout(lines: seq<string>, x: nat, y: nat) returns (e: seq<Event>, at: seq<nat>)
    ensures |at| == |lines| + 1 && at[0] == 0 && at[|lines|] == |e|
    ensures forall i | 0 <= i < |lines| :: LineAt(lines, i, e, at[i], at[i + 1])
    ensures ShareScope(Events(lines, |lines|), x, y) <==> AnySpans(After(e, |e|).scopes, x, y)
  {
    e := Events(lines, |lines|);
    at := seq(|lines| + 1, i requires 0 <= i <= |lines| => |Events(lines, i)|);
    forall i | 0 <= i < |lines| ensures LineAt(lines, i, e, at[i], at[i + 1]) {
      LineLayout(lines, i);
    }
    ScopesDecide(e, x, y);
  }

  method PushOpens(line: nat, header: bool, opens: nat, s: State, ghost e: seq<Event>, ghost base: nat)
    returns (r: State)
    requires base + opens <= |e| && s == After(e, base)
    requires forall j | base <= j < base + opens :: e[j] == Open(line, header)
    ensures r == After(e, base + opens)
  {
    r := s;
    for j := 0 to opens
      invariant r == After(e, base + j)
    {
      r := State(r.stack + [Opening(line, header)], r.scopes);
    }
  }

  method PopCloses(line: nat, closes: nat, s: State, ghost e: seq<Event>, ghost base: nat) returns (r: State)
    requires base + closes <= |e| && s == After(e, base)
    requires forall j | base <= j < base + closes :: e[j] == Close(line)
    ensures r == After(e, base + closes)
  {
    var stack, scopes := s.stack, s.scopes;
    for j := 0 to closes
      invariant State(stack, scopes) == After(e, base + j)
    {
      assert After(e, base + j + 1) == Step(State(stack, scopes), Close(line));
      if stack != [] {
        var top := stack[|stack| - 1];
        stack := stack[..|stack| - 1];
        if top.header { scopes := scopes + [Scope(top.line, line)]; }
      }
    }
    return State(stack, scopes);
  }

  /** Pushes the `{` of one line, then pops for each of its `}`. */
  method ScanLine(lines: seq<string>, i: nat, s: State, ghost e: seq<Event>, ghost base: nat, ghost next: nat)
    returns (r: State)
    requires i < |lines| && LineAt(lines, i, e, base, next) && s == After(e, base)
    ensures r == After(e, next)
  {
    r := PushOpens(i + 1, MethodHeader(lines, i), Count(lines[i], '{'), s, e, base);
    r := PopCloses(i + 1, Count(lines[i], '}'), r, e, base + Count(lines[i], '{'));
  }

  method ScanScopes(lines: seq<string>, ghost e: seq<Event>, ghost at: seq<nat>) returns (scopes: seq<Scope>)
    requires |at| == |lines| + 1 && at[0] == 0 && at[|lines|] == |e|
    requires forall i | 0 <= i < |lines| :: LineAt(lines, i, e, at[i], at[i + 1])
    ensures scopes == After(e, |e|).scopes
  {
    var s := State([], []);
    for i := 0 to |lines|
      invariant at[i] <= |e| && s == After(e, at[i])
    {
      s := ScanLine(lines, i, s, e, at[i], at[i + 1]);
    }
    return s.scopes;
  }

  /** Decides `ShareScope` by one pass with a stack of opening lines. */
  method SameJavaCallable(lines: seq<string>, firstLine: int, secondLine: int) returns (same: bool)
    ensures same <==>
              && 1 <= firstLine <= |lines| && 1 <= secondLine <= |lines|
              && ShareScope(Events(lines, |lines|), firstLine, secondLine)
  {
    if firstLine < 1 || secondLine < 1 { return false; }
    if firstLine > |lines| || secondLine > |lines| { return false; }
    ghost var e, at := FileLayout(lines, firstLine, secondLine);
    var scopes := ScanScopes(lines, e, at);
    same := AnySpans(scopes, firstLine, secondLine);
  }
}
