// The edit distance behind the compiler's "did you mean" hints
// (compiler/errors.go): the table that levenshtein fills, against the length of
// the shortest edit script, and the laws that make that length a metric.
module EditDistance {

  /** One step of an edit script, read left to right. In this module a `char`
      stands for one byte of a Go string. */
  datatype Edit =
    | Keep(c: char)
    | Substitute(from: char, to: char)
    | Delete(c: char)
    | Insert(c: char)
  {
    function Consumed(): string {
      match this
      case Keep(c) => [c]
      case Substitute(from, _) => [from]
      case Delete(c) => [c]
      case Insert(_) => []
    }

    function Produced(): string {
      match this
      case Keep(c) => [c]
      case Substitute(_, to) => [to]
      case Delete(_) => []
      case Insert(c) => [c]
    }

    function Price(): nat {
      if Keep? then 0 else 1
    }

    function Undo(): Edit {
      match this
      case Keep(c) => Keep(c)
      case Substitute(from, to) => Substitute(to, from)
      case Delete(c) => Insert(c)
      case Insert(c) => Delete(c)
    }
  }

  type Script = seq<Edit>

  function Last<T>(s: seq<T>): T
    requires s != []
  {
    s[|s| - 1]
  }

  function Front<T>(s: seq<T>): seq<T>
    requires s != []
  {
    s[..|s| - 1]
  }

  /** The string a script reads. */
  function Source(s: Script): string {
    if s == [] then [] else Source(Front(s)) + Last(s).Consumed()
  }

  /** The string it writes. */
  function Target(s: Script): string {
    if s == [] then [] else Target(Front(s)) + Last(s).Produced()
  }

  /** How many insertions, deletions and substitutions it makes. */
  function Cost(s: Script): nat {
    if s == [] then 0 else Cost(Front(s)) + Last(s).Price()
  }

  predicate Rewrites(s: Script, a: string, b: string) {
    Source(s) == a && Target(s) == b
  }

  /** `n` edits turn `a` into `b`, and no script does it with fewer. */
  ghost predicate IsDistance(a: string, b: string, n: nat) {
    var least := (exists s :: Rewrites(s, a, b) && Cost(s) == n) && (forall s :: Rewrites(s, a, b) ==> n <= Cost(s));
    least
  }

  // ----- The table -----

  /** The compiler's min3. */
  function Min3(a: int, b: int, c: int): (m: int)
    ensures m <= a && m <= b && m <= c && (m == a || m == b || m == c)
  {
    if a < b then (if a < c then a else c) else if b < c then b else c
  }

  /** The entry the table holds for a prefix of each string. */
  function Entry(a: string, b: string): nat
    decreases |a| + |b|
  {
    if a == [] then |b|
    else if b == [] then |a|
    else
      Min3(Entry(Front(a), b) + 1,
           Entry(a, Front(b)) + 1,
           Entry(Front(a), Front(b)) + if Last(a) == Last(b) then 0 else 1)
  }

  /** The entry for the first `i` bytes of `a` and the first `j` of `b`. */
  ghost function At(a: string, b: string, i: int, j: int): nat {
    if 0 <= i <= |a| && 0 <= j <= |b| then Entry(a[..i], b[..j]) else 0
  }

  lemma AtEdge(a: string, b: string)
    ensures forall k :: 0 <= k <= |a| ==> At(a, b, k, 0) == k
    ensures forall l :: 0 <= l <= |b| ==> At(a, b, 0, l) == l
  {
    forall k | 0 <= k <= |a| ensures At(a, b, k, 0) == k {
      assert b[..0] == [];
    }
  }

  lemma AtStep(a: string, b: string, i: int, j: int)
    requires 1 <= i <= |a| && 1 <= j <= |b|
    ensures At(a, b, i, j) ==
            Min3(At(a, b, i - 1, j) + 1, At(a, b, i, j - 1) + 1,
                 At(a, b, i - 1, j - 1) + if a[i - 1] == b[j - 1] then 0 else 1)
  {
    assert Front(a[..i]) == a[..i - 1] && Front(b[..j]) == b[..j - 1];
  }

  lemma AtEnd(a: string, b: string)
    ensures At(a, b, |a|, |b|) == Entry(a, b)
  {
    assert a[..|a|] == a && b[..|b|] == b;
  }

  /** Row `i` of the table is right up to column `upto`. */
  ghost predicate RowHolds(matrix: array2<nat>, a: string, b: string, i: int, upto: int)
    reads matrix
    requires 0 <= i < matrix.Length0 && upto <= matrix.Length1
  {
    forall l :: 0 <= l < upto ==> matrix[i, l] == At(a, b, i, l)
  }

  /** The table's result is the number of edits a shortest script needs. */
  method Levenshtein(a: string, b: string) returns (n: nat)
    ensures IsDistance(a, b, n)
  {
    EntryIsDistance(a, b);
    var la, lb := |a|, |b|;
    if la == 0 {
      return lb;
    }
    if lb == 0 {
      return la;
    }
    n := FillTable(a, b);
  }

  /** The table, filled row by row; its last entry. */
  method FillTable(a: string, b: string) returns (n: nat)
    ensures n == Entry(a, b)
  {
    var la, lb := |a|, |b|;
    var matrix := new nat[la + 1, lb + 1];
    for i := 0 to la + 1
      invariant forall k :: 0 <= k < i ==> matrix[k, 0] == k
    {
      matrix[i, 0] := i;
    }
    for j := 0 to lb + 1
      invariant forall k :: 0 <= k <= la ==> matrix[k, 0] == k
      invariant forall l :: 0 <= l < j ==> matrix[0, l] == l
    {
      matrix[0, j] := j;
    }
    AtEdge(a, b);
    for i := 1 to la + 1
      invariant forall k :: 0 <= k <= la ==> matrix[k, 0] == k
      invariant RowHolds(matrix, a, b, i - 1, lb + 1)
    {
      for j := 1 to lb + 1
        invariant forall k :: 0 <= k <= la ==> matrix[k, 0] == k
        invariant RowHolds(matrix, a, b, i - 1, lb + 1)
        invariant RowHolds(matrix, a, b, i, j)
      {
        var cost := 1;
        if a[i - 1] == b[j - 1] {
          cost := 0;
        }
        AtStep(a, b, i, j);
        matrix[i, j] := Min3(matrix[i - 1, j] + 1, matrix[i, j - 1] + 1, matrix[i - 1, j - 1] + cost);
      }
    }
    AtEnd(a, b);
    return matrix[la, lb];
  }

  // ----- The table against scripts -----

  /** A script one step longer. */
  function Then(s: Script, e: Edit): (u: Script)
    ensures Source(u) == Source(s) + e.Consumed()
    ensures Target(u) == Target(s) + e.Produced()
    ensures Cost(u) == Cost(s) + e.Price()
  {
    assert Front(s + [e]) == s;
    s + [e]
  }

  lemma Unsplit<T>(s: seq<T>)
    requires s != []
    ensures s == Front(s) + [Last(s)]
  {
  }

  /** A shortest script, read off the table from its last entry back. */
  function Shortest(a: string, b: string): (s: Script)
    ensures Rewrites(s, a, b) && Cost(s) == Entry(a, b)
    decreases |a| + |b|, 0
  {
    if a == [] && b == [] then []
    else if a == [] then
      Unsplit(b); Grow(a, Front(b), Insert(Last(b)))
    else if b == [] then
      Unsplit(a); Grow(Front(a), b, Delete(Last(a)))
    else
      Unsplit(a); Unsplit(b);
      var n := Entry(a, b);
      if n == Entry(Front(a), b) + 1 then Grow(Front(a), b, Delete(Last(a)))
      else if n == Entry(a, Front(b)) + 1 then Grow(a, Front(b), Insert(Last(b)))
      else if Last(a) == Last(b) then Grow(Front(a), Front(b), Keep(Last(a)))
      else Grow(Front(a), Front(b), Substitute(Last(a), Last(b)))
  }

  function Grow(a: string, b: string, e: Edit): (s: Script)
    ensures Rewrites(s, a + e.Consumed(), b + e.Produced())
    ensures Cost(s) == Entry(a, b) + e.Price()
    decreases |a| + |b|, 1
  {
    Then(Shortest(a, b), e)
  }

  /** No script is cheaper than the table's entry. */
  lemma {:induction false} NoScriptIsCheaper(s: Script)
    ensures Entry(Source(s), Target(s)) <= Cost(s)
  {
    if s != [] {
      NoScriptIsCheaper(Front(s));
      OneMoreEdit(Source(Front(s)), Target(Front(s)), Last(s));
    }
  }

  /** One more edit adds at most its price to the entry. */
  lemma OneMoreEdit(a: string, b: string, e: Edit)
    ensures Entry(a + e.Consumed(), b + e.Produced()) <= Entry(a, b) + e.Price()
  {
    var x, y := a + e.Consumed(), b + e.Produced();
    match e
    case Keep(c) =>
      assert Front(x) == a && Front(y) == b;
    case Substitute(_, _) =>
      assert Front(x) == a && Front(y) == b;
    case Delete(_) =>
      assert Front(x) == a && y == b;
      if b == [] { EmptySide(a); }
    case Insert(_) =>
      assert x == a && Front(y) == b;
      if a == [] { EmptySide(b); }
  }

  lemma EmptySide(a: string)
    ensures Entry(a, []) == |a| == Entry([], a)
  {
  }

  lemma EntryIsDistance(a: string, b: string)
    ensures IsDistance(a, b, Entry(a, b))
  {
    var w := Shortest(a, b);
    assert Rewrites(w, a, b);
    forall s | Rewrites(s, a, b) ensures Entry(a, b) <= Cost(s) {
      NoScriptIsCheaper(s);
    }
  }

  // ----- The metric laws -----

  /** Two strings have one distance. */
  lemma DistanceIsUnique(a: string, b: string, m: nat, n: nat)
    requires IsDistance(a, b, m) && IsDistance(a, b, n)
    ensures m == n
  {
  }

  /** Distance zero means equal. */
  lemma ZeroIffEqual(a: string, b: string, n: nat)
    requires IsDistance(a, b, n)
    ensures n == 0 <==> a == b
  {
    if n == 0 {
      var s :| Rewrites(s, a, b) && Cost(s) == 0;
      FreeScriptKeeps(s);
    }
    if a == b {
      var s := Keeping(a);
      assert Rewrites(s, a, b);
    }
  }

  lemma {:induction false} FreeScriptKeeps(s: Script)
    requires Cost(s) == 0
    ensures Source(s) == Target(s)
  {
    if s != [] {
      FreeScriptKeeps(Front(s));
      assert Last(s).Keep?;
    }
  }

  function Keeping(a: string): (s: Script)
    ensures Rewrites(s, a, a) && Cost(s) == 0
  {
    if a == [] then []
    else
      Unsplit(a);
      Then(Keeping(Front(a)), Keep(Last(a)))
  }

  /** Undoing every step turns the target back into the source at the same cost. */
  function Undone(s: Script): (u: Script)
    ensures Rewrites(u, Target(s), Source(s)) && Cost(u) == Cost(s)
  {
    if s == [] then []
    else
      Then(Undone(Front(s)), Last(s).Undo())
  }

  lemma DistanceIsSymmetric(a: string, b: string, n: nat)
    requires IsDistance(a, b, n)
    ensures IsDistance(b, a, n)
  {
    var s :| Rewrites(s, a, b) && Cost(s) == n;
    var u := Undone(s);
    assert Rewrites(u, b, a);
    forall t | Rewrites(t, b, a) ensures n <= Cost(t) {
      var v := Undone(t);
      assert Rewrites(v, a, b);
    }
  }

  /** Two scripts run one after the other, as one script that is no dearer. */
  function Composed(s: Script, t: Script): (u: Script)
    requires Target(s) == Source(t)
    ensures Rewrites(u, Source(s), Target(t)) && Cost(u) <= Cost(s) + Cost(t)
    decreases |s| + |t|
  {
    if s != [] && Last(s).Delete? then Then(Composed(Front(s), t), Last(s))
    else if t != [] && Last(t).Insert? then Then(Composed(s, Front(t)), Last(t))
    else if s == [] || t == [] then []
    else
      LastsMeet(s, t);
      Joined(Composed(Front(s), Front(t)), Last(s), Last(t))
  }

  /** The last step of `s` writes the byte that the last step of `t` reads. */
  lemma LastsMeet(s: Script, t: Script)
    requires s != [] && t != [] && Target(s) == Source(t) && !Last(s).Delete? && !Last(t).Insert?
    ensures Target(Front(s)) == Source(Front(t)) && Last(s).Produced() == Last(t).Consumed()
  {
    SameLast(Target(Front(s)), Last(s).Produced()[0], Source(Front(t)), Last(t).Consumed()[0]);
  }

  /** A step that writes a byte and one that reads it, as one step or none. */
  function Joined(u: Script, e: Edit, f: Edit): (v: Script)
    requires !e.Delete? && !f.Insert? && e.Produced() == f.Consumed()
    ensures Source(v) == Source(u) + e.Consumed() && Target(v) == Target(u) + f.Produced()
    ensures Cost(v) <= Cost(u) + e.Price() + f.Price()
  {
    if e.Insert? && f.Delete? then u else Then(u, Fused(e, f))
  }

  function Fused(e: Edit, f: Edit): (g: Edit)
    requires !e.Delete? && !f.Insert? && e.Produced() == f.Consumed() && !(e.Insert? && f.Delete?)
    ensures g.Consumed() == e.Consumed() && g.Produced() == f.Produced()
    ensures g.Price() <= e.Price() + f.Price()
  {
    if e.Keep? then f
    else if f.Keep? then e
    else if e.Insert? then Insert(f.to)
    else if f.Delete? then Delete(e.from)
    else Substitute(e.from, f.to)
  }

  lemma SameLast(x: string, c: char, y: string, d: char)
    requires x + [c] == y + [d]
    ensures x == y && c == d
  {
    assert x == (x + [c])[..|x|] && y == (y + [d])[..|y|];
    assert c == (x + [c])[|x|] && d == (y + [d])[|y|];
  }

  lemma TriangleInequality(a: string, b: string, c: string, ab: nat, bc: nat, ac: nat)
    requires IsDistance(a, b, ab) && IsDistance(b, c, bc) && IsDistance(a, c, ac)
    ensures ac <= ab + bc
  {
    var s :| Rewrites(s, a, b) && Cost(s) == ab;
    var t :| Rewrites(t, b, c) && Cost(t) == bc;
    assert Rewrites(Composed(s, t), a, c);
  }

  /** One byte more, or another byte in a place, is one edit. */
  lemma OneEdit(x: string, c: char, d: char, y: string)
    ensures IsDistance(x + [c] + y, x + y, 1)
    ensures c != d ==> IsDistance(x + [c] + y, x + [d] + y, 1)
  {
    var dropped := Amended(x, Delete(c), y);
    AtLeastOne(dropped, x + [c] + y, x + [] + y);
    assert x + [] + y == x + y;
    if c != d {
      assert (x + [c] + y)[|x|] != (x + [d] + y)[|x|];
      var changed := Amended(x, Substitute(c, d), y);
      AtLeastOne(changed, x + [c] + y, x + [d] + y);
    }
  }

  lemma AtLeastOne(s: Script, a: string, b: string)
    requires Rewrites(s, a, b) && Cost(s) == 1 && a != b
    ensures IsDistance(a, b, 1)
  {
    forall t | Rewrites(t, a, b) ensures 1 <= Cost(t) {
      if Cost(t) == 0 { FreeScriptKeeps(t); }
    }
  }

  /** The script that makes one edit between two texts that it keeps. */
  lemma {:induction false} Amended(x: string, e: Edit, y: string) returns (s: Script)
    ensures Rewrites(s, x + e.Consumed() + y, x + e.Produced() + y) && Cost(s) == e.Price()
    decreases |y|
  {
    if y == [] {
      s := Then(Keeping(x), e);
      assert x + e.Consumed() + y == x + e.Consumed() && x + e.Produced() + y == x + e.Produced();
    } else {
      s := Amended(x, e, Front(y));
      s := Then(s, Keep(Last(y)));
      assert x + e.Consumed() + y == x + e.Consumed() + Front(y) + [Last(y)];
      assert x + e.Produced() + y == x + e.Produced() + Front(y) + [Last(y)];
    }
  }

  // ----- The hint -----

  const SUGGESTED: seq<string> := [
    "server", "database", "cache", "broker", "route", "fn", "let", "return",
    "import", "export", "from", "try", "catch", "match", "test", "assert",
    "enum", "struct", "interface", "middleware", "if", "else", "for", "in",
    "spawn", "every", "cron", "subscribe", "publish", "true", "false", "nil",
    "self", "await", "ws", "validate", "type", "use", "limit", "tool"
  ]

  /** A different word that at most two edits turn `token` into. */
  ghost predicate Resembles(token: string, keyword: string) {
    token != keyword && exists s :: Rewrites(s, token, keyword) && Cost(s) <= 2
  }

  /** The first keyword that the token in lower case resembles, or the empty string when
      there is none. `toLower` is strings.ToLower, Unicode's case mapping. */
  method FindSimilarKeyword(token: string, toLower: string -> string) returns (keyword: string)
    ensures IsFirstResembling(toLower(token), SUGGESTED, keyword)
  {
    keyword := FirstResembling(toLower(token), SUGGESTED);
  }

  ghost predicate IsFirstResembling(token: string, keywords: seq<string>, keyword: string) {
    if keyword == "" then
      forall k :: 0 <= k < |keywords| ==> !Resembles(token, keywords[k])
    else
      exists k :: 0 <= k < |keywords| && keyword == keywords[k] && Resembles(token, keywords[k])
        && forall j :: 0 <= j < k ==> !Resembles(token, keywords[j])
  }

  /** The loop of findSimilarKeyword over any keyword list. */
  method FirstResembling(token: string, keywords: seq<string>) returns (keyword: string)
    requires forall k :: 0 <= k < |keywords| ==> keywords[k] != ""
    ensures IsFirstResembling(token, keywords, keyword)
  {
    for k := 0 to |keywords|
      invariant forall j :: 0 <= j < k ==> !Resembles(token, keywords[j])
    {
      var n := Levenshtein(token, keywords[k]);
      ResemblesByDistance(token, keywords[k], n);
      if n <= 2 && token != keywords[k] {
        return keywords[k];
      }
    }
    return "";
  }

  lemma ResemblesByDistance(token: string, keyword: string, n: nat)
    requires IsDistance(token, keyword, n)
    ensures Resembles(token, keyword) <==> n <= 2 && token != keyword
  {
  }
}
