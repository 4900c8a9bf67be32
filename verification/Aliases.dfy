// The names under which generated code imports Go packages: getPackageAlias
// (compiler/codegen.go).
module Aliases {
  import opened GoStrings

  /** A path's last element, as filepath.Base gives it. */
  function Base(path: string): string {
    var p := WithoutSlashes(path);
    if path == "" then "." else if p == "" then "/" else LastElement(p)
  }

  function WithoutSlashes(path: string): string {
    if path != "" && path[|path| - 1] == '/' then WithoutSlashes(path[..|path| - 1]) else path
  }

  function LastElement(path: string): string {
    if path == "" || path[|path| - 1] == '/' then "" else LastElement(path[..|path| - 1]) + [path[|path| - 1]]
  }

  predicate IsWordChar(c: char) {
    'a' <= c <= 'z' || 'A' <= c <= 'Z' || '0' <= c <= '9' || c == '_'
  }

  function WordChars(s: string): string {
    if s == "" then "" else (if IsWordChar(s[0]) then [s[0]] else "") + WordChars(s[1..])
  }

  function Sanitized(path: string): string {
    var word := WordChars(Base(path));
    if word == "" then "pkg" else word
  }

  function Candidate(base: string, counter: nat): string {
    base + "_" + Decimal(counter)
  }

  lemma CandidatesDiffer(base: string, m: nat, n: nat)
    ensures Candidate(base, m) == Candidate(base, n) ==> m == n
  {
    AtoiUndoesDecimal(m);
    AtoiUndoesDecimal(n);
    assert Candidate(base, m)[|base| + 1..] == Decimal(m);
    assert Candidate(base, n)[|base| + 1..] == Decimal(n);
  }

  /** The least counter from `n` on whose candidate is not taken. There is one: each
      taken candidate passed over leaves one taken name less. */
  function FreeFrom(base: string, taken: set<string>, n: nat): (m: nat)
    decreases |taken|
  {
    var candidate := Candidate(base, n);
    if candidate in taken then FreeFrom(base, taken - {candidate}, n + 1) else n
  }

  lemma {:induction false} FreeFromIsLeast(base: string, taken: set<string>, n: nat)
    ensures var m := FreeFrom(base, taken, n);
      n <= m && Candidate(base, m) !in taken && forall k: nat :: n <= k < m ==> Candidate(base, k) in taken
    decreases |taken|
  {
    var candidate := Candidate(base, n);
    if candidate in taken {
      var rest := taken - {candidate};
      FreeFromIsLeast(base, rest, n + 1);
      CandidatesDiffer(base, n, FreeFrom(base, rest, n + 1));
    }
  }

  /** The alias that a path gets when it has none yet and the names in `taken` are gone. */
  function NewAlias(path: string, taken: set<string>): string {
    var base := Sanitized(path);
    if base in taken then Candidate(base, FreeFrom(base, taken, 1)) else base
  }

  lemma NewAliasIsFree(path: string, taken: set<string>)
    ensures NewAlias(path, taken) !in taken
  {
    FreeFromIsLeast(Sanitized(path), taken, 1);
  }

  /** Every new alias is a non-empty run of letters, digits and underscores. */
  lemma NewAliasIsWord(path: string, taken: set<string>)
    ensures NewAlias(path, taken) != "" && forall i :: 0 <= i < |NewAlias(path, taken)| ==> IsWordChar(NewAlias(path, taken)[i])
  {
    WordCharsOnly(Base(path));
    AtoiUndoesDecimal(FreeFrom(Sanitized(path), taken, 1));
  }

  lemma {:induction false} WordCharsOnly(s: string)
    ensures forall i :: 0 <= i < |WordChars(s)| ==> IsWordChar(WordChars(s)[i])
    ensures WordChars(s) == s <==> forall i :: 0 <= i < |s| ==> IsWordChar(s[i])
    ensures |WordChars(s)| <= |s|
  {
    if s != "" {
      WordCharsOnly(s[1..]);
    }
  }

  /** The last element is what stands behind the last slash that is not at the end. */
  lemma {:induction false} BaseIs(dir: string, last: string, slashes: string)
    requires dir == "" || dir[|dir| - 1] == '/'
    requires last != "" && Lacks(last, '/') && (forall i :: 0 <= i < |slashes| ==> slashes[i] == '/')
    ensures Base(dir + last + slashes) == last
  {
    SlashesGo(dir + last, slashes);
    LastElementIs(dir, last);
  }

  lemma {:induction false} SlashesGo(path: string, slashes: string)
    requires path != "" && path[|path| - 1] != '/' && forall i :: 0 <= i < |slashes| ==> slashes[i] == '/'
    ensures WithoutSlashes(path + slashes) == path
  {
    if slashes == "" {
      assert path + slashes == path;
    } else {
      assert (path + slashes)[..|path| + |slashes| - 1] == path + slashes[..|slashes| - 1];
      SlashesGo(path, slashes[..|slashes| - 1]);
    }
  }

  lemma {:induction false} LastElementIs(dir: string, last: string)
    requires (dir == "" || dir[|dir| - 1] == '/') && Lacks(last, '/')
    ensures LastElement(dir + last) == last
  {
    if last == "" {
      assert dir + last == dir;
    } else {
      assert (dir + last)[..|dir| + |last| - 1] == dir + last[..|last| - 1];
      LastElementIs(dir, last[..|last| - 1]);
    }
  }

  /** Of a word, the ASCII letters, digits and underscores stay, in order. */
  lemma WordCharsAre(a: string, c: char, b: string)
    ensures WordChars(a + [c] + b) ==
      WordChars(a) + (if 'a' <= c <= 'z' || 'A' <= c <= 'Z' || '0' <= c <= '9' || c == '_' then [c] else "") + WordChars(b)
  {
    WordCharsConcat(a + [c], b);
    WordCharsConcat(a, [c]);
    OneChar(c);
  }

  lemma OneChar(c: char)
    ensures WordChars([c]) == if 'a' <= c <= 'z' || 'A' <= c <= 'Z' || '0' <= c <= '9' || c == '_' then [c] else ""
  {
    assert [c][1..] == "";
    assert WordChars([c]) == (if IsWordChar(c) then [c] else "") + "";
  }

  lemma {:induction false} WordCharsConcat(a: string, b: string)
    ensures WordChars(a + b) == WordChars(a) + WordChars(b)
  {
    if a == "" {
      assert a + b == b;
    } else {
      assert (a + b)[1..] == a[1..] + b;
      WordCharsConcat(a[1..], b);
    }
  }

  /** A path is called by the characters of its last element that may stand in a name, or
      `pkg`; where that is taken, with the least free number behind it. */
  lemma NewAliasIs(dir: string, last: string, slashes: string, taken: set<string>)
    requires dir == "" || dir[|dir| - 1] == '/'
    requires last != "" && Lacks(last, '/') && (forall i :: 0 <= i < |slashes| ==> slashes[i] == '/')
    ensures var word := if WordChars(last) == "" then "pkg" else WordChars(last);
      var alias := NewAlias(dir + last + slashes, taken);
      if word !in taken then alias == word
      else exists m: nat :: m >= 1 && alias == word + "_" + Decimal(m) && alias !in taken
                            && forall k: nat :: 1 <= k < m ==> word + "_" + Decimal(k) in taken
  {
    BaseIs(dir, last, slashes);
    var path := dir + last + slashes;
    FreeFromIsLeast(Sanitized(path), taken, 1);
    var m := FreeFrom(Sanitized(path), taken, 1);
    forall k: nat | 1 <= k < m ensures Sanitized(path) + "_" + Decimal(k) in taken {
      assert Candidate(Sanitized(path), k) in taken;
    }
  }

  function Assigned(aliases: map<string, string>, path: string): map<string, string> {
    if path in aliases then aliases else aliases[path := NewAlias(path, aliases.Values)]
  }

  function AssignedAll(aliases: map<string, string>, paths: seq<string>): map<string, string>
    decreases |paths|
  {
    if paths == [] then aliases else AssignedAll(Assigned(aliases, paths[0]), paths[1..])
  }

  predicate Injective(aliases: map<string, string>) {
    forall p, q :: p in aliases && q in aliases && aliases[p] == aliases[q] ==> p == q
  }

  /** Over any sequence of calls different paths have different aliases, every path asked
      for has one, and an alias once given stays. */
  lemma {:induction false} AliasesStayApart(aliases: map<string, string>, paths: seq<string>)
    requires Injective(aliases)
    ensures var after := AssignedAll(aliases, paths);
      && Injective(after)
      && (forall p :: p in paths ==> p in after)
      && (forall p :: p in aliases ==> p in after && after[p] == aliases[p])
    decreases |paths|
  {
    if paths != [] {
      NewAliasIsFree(paths[0], aliases.Values);
      AliasesStayApart(Assigned(aliases, paths[0]), paths[1..]);
    }
  }

  class Codegen {
    var packageAliases: map<string, string>
    var imports: set<string>

    constructor ()
      ensures packageAliases == map[] && imports == {}
    {
      packageAliases, imports := map[], {};
    }

    method GetPackageAlias(pkgPath: string) returns (alias: string)
      modifies this
      ensures packageAliases == Assigned(old(packageAliases), pkgPath)
      ensures alias == packageAliases[pkgPath]
      ensures imports == old(imports) +
        if pkgPath in old(packageAliases) then {}
        else {if alias == Sanitized(pkgPath) then "\"" + pkgPath + "\"" else alias + " \"" + pkgPath + "\""}
    {
      if pkgPath in packageAliases {
        return packageAliases[pkgPath];
      }
      var sanitizedBase := Sanitized(pkgPath);
      alias := sanitizedBase;
      if sanitizedBase in packageAliases.Values {
        var counter := 1;
        ghost var left := packageAliases.Values;
        var candidate := Candidate(sanitizedBase, counter);
        while candidate in packageAliases.Values
          invariant counter >= 1 && candidate == Candidate(sanitizedBase, counter)
          invariant left <= packageAliases.Values
          invariant forall k: nat :: k >= counter && Candidate(sanitizedBase, k) in packageAliases.Values ==> Candidate(sanitizedBase, k) in left
          invariant FreeFrom(sanitizedBase, left, counter) == FreeFrom(sanitizedBase, packageAliases.Values, 1)
          decreases |left|
        {
          left := left - {candidate};
          forall k: nat | k > counter ensures Candidate(sanitizedBase, k) != candidate {
            CandidatesDiffer(sanitizedBase, counter, k);
          }
          counter := counter + 1;
          candidate := Candidate(sanitizedBase, counter);
        }
        alias := candidate;
      }
      packageAliases := packageAliases[pkgPath := alias];
      imports := imports + {ImportSpec(alias, pkgPath)};
    }
  }

  /** The import declaration for a package. */
  function ImportSpec(alias: string, path: string): string {
    if alias == Sanitized(path) then "\"" + path + "\"" else alias + " \"" + path + "\""
  }
}
