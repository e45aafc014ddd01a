/**
  Asset selection (`should_download_asset`): each configured pattern has every `*`
  rewritten to `.*` and is then applied with Python's `re.match`, which anchors the
  match at the start of the name but not at its end. Only the regular-expression
  subset that this rewriting produces from plain names is modelled: literal
  characters, `.` (one character other than a line feed) and `.*` (a run of such
  characters, possibly empty).
*/
module Patterns {

  /** One symbol of a compiled pattern. */
  datatype Sym = Lit(c: char) | AnyChar | AnyRun

  /** The patterns used when a project configures none. */
  const DefaultPatterns: seq<string> := [".*"]

  /** Python's `.` matches every character except a line feed. */
  predicate Wild(c: char) {
    c != '\n'
  }

  /** Every `*` in `r` directly follows a `.`: the shape of any rewritten pattern. */
  predicate StarsFollowDots(r: string) {
    forall i :: 0 <= i < |r| && r[i] == '*' ==> 0 < i && r[i - 1] == '.'
  }

  /** `pattern.replace('*', '.*')`. */
  function StarToDotStar(p: string): (r: string)
    ensures StarsFollowDots(r)
    ensures |p| > 0 ==> |r| > 0 && r[0] != '*'
    ensures |r| >= |p|
  {
    if p == [] then []
    else
      var head := if p[0] == '*' then ".*" else [p[0]];
      var tail := StarToDotStar(p[1..]);
      assert forall i :: 0 <= i < |tail| ==> (head + tail)[|head| + i] == tail[i];
      head + tail
  }

  /** Reads a rewritten pattern as `re` does: `.*` is a run, `.` one character, the rest literal. */
  function Compile(r: string): (syms: seq<Sym>)
    requires StarsFollowDots(r)
    ensures |syms| <= |r|
    ensures (forall k :: 0 <= k < |r| ==> r[k] != '.') ==> syms == Lits(r)
  {
    if r == [] then []
    else if r[0] == '.' && |r| > 1 && r[1] == '*' then
      assert StarsFollowDots(r[2..]) by {
        forall i | 0 <= i < |r[2..]| && r[2..][i] == '*' ensures 0 < i && r[2..][i - 1] == '.' {
          assert r[i + 2] == '*';
        }
      }
      [AnyRun] + Compile(r[2..])
    else
      assert StarsFollowDots(r[1..]) by {
        forall i | 0 <= i < |r[1..]| && r[1..][i] == '*' ensures 0 < i && r[1..][i - 1] == '.' {
          assert r[i + 1] == '*';
        }
      }
      (if r[0] == '.' then [AnyChar] else [Lit(r[0])]) + Compile(r[1..])
  }

  /** The glob reading of a configured pattern: `*` any run, `.` any one character. */
  function SymOf(c: char): Sym {
    if c == '*' then AnyRun else if c == '.' then AnyChar else Lit(c)
  }

  function Symbols(p: string): seq<Sym> {
    seq(|p|, i requires 0 <= i < |p| => SymOf(p[i]))
  }

  /** `ps` matches the whole of `s`. */
  predicate FullMatch(ps: seq<Sym>, s: string)
    decreases |ps|, |s|
  {
    if ps == [] then s == []
    else match ps[0]
      case Lit(c) => |s| > 0 && s[0] == c && FullMatch(ps[1..], s[1..])
      case AnyChar => |s| > 0 && Wild(s[0]) && FullMatch(ps[1..], s[1..])
      case AnyRun => FullMatch(ps[1..], s) || (|s| > 0 && Wild(s[0]) && FullMatch(ps, s[1..]))
  }

  /** `re.match` semantics: `ps` matches some prefix of `s`. */
  predicate PrefixMatch(ps: seq<Sym>, s: string)
    ensures ps == [] ==> PrefixMatch(ps, s)
    ensures PrefixMatch(ps, s) && ps != [] && ps[0].Lit? ==> |s| > 0 && s[0] == ps[0].c
    decreases |ps|, |s|
  {
    if ps == [] then true
    else match ps[0]
      case Lit(c) => |s| > 0 && s[0] == c && PrefixMatch(ps[1..], s[1..])
      case AnyChar => |s| > 0 && Wild(s[0]) && PrefixMatch(ps[1..], s[1..])
      case AnyRun => PrefixMatch(ps[1..], s) || (|s| > 0 && Wild(s[0]) && PrefixMatch(ps, s[1..]))
  }

  /** `re.match(pattern.replace('*', '.*'), name)` succeeds. */
  predicate Selects(pattern: string, name: string)
    ensures pattern == [] ==> Selects(pattern, name)
    ensures Selects(pattern, name) && |pattern| > 0 && pattern[0] != '.' && pattern[0] != '*' ==> |name| > 0 && name[0] == pattern[0]
  {
    PrefixMatch(Compile(StarToDotStar(pattern)), name)
  }

  /** `should_download_asset`: some pattern, tried in order, selects the name. */
  function ShouldDownload(name: string, patterns: seq<string>): (r: bool)
    ensures r <==> exists i :: 0 <= i < |patterns| && Selects(patterns[i], name)
  {
    if patterns == [] then false
    else if Selects(patterns[0], name) then true
    else
      assert forall i :: 0 < i < |patterns| ==> patterns[i] == patterns[1..][i - 1];
      ShouldDownload(name, patterns[1..])
  }

  lemma {:induction false} CompileStarToDotStar(p: string)
    ensures Compile(StarToDotStar(p)) == Symbols(p)
    decreases |p|
  {
    if p != [] {
      var tail := StarToDotStar(p[1..]);
      CompileStarToDotStar(p[1..]);
      assert Symbols(p) == [SymOf(p[0])] + Symbols(p[1..]);
      if p[0] == '*' {
        assert StarToDotStar(p) == ".*" + tail;
        assert (".*" + tail)[2..] == tail;
      } else {
        assert StarToDotStar(p) == [p[0]] + tail;
        assert ([p[0]] + tail)[1..] == tail;
        assert |tail| > 0 ==> tail[0] != '*';
      }
    }
  }

  /** The rewritten regular expression selects exactly what the glob reading of the pattern does. */
  lemma SelectsByGlob(pattern: string, name: string)
    ensures Selects(pattern, name) <==> PrefixMatch(Symbols(pattern), name)
  {
    CompileStarToDotStar(pattern);
  }

  lemma PrefixOfTail(s: string, k: nat)
    requires 0 < k <= |s|
    ensures s[..k][1..] == s[1..][..k - 1]
  {
  }

  /** A prefix match is a full match of some prefix of the name. */
  lemma {:induction false} PrefixMatchIsFullMatchOfPrefix(ps: seq<Sym>, s: string)
    ensures PrefixMatch(ps, s) <==> exists k :: 0 <= k <= |s| && FullMatch(ps, s[..k])
    decreases |ps|, |s|
  {
    if ps == [] {
      assert FullMatch(ps, s[..0]);
    } else {
      match ps[0]
      case AnyRun =>
        PrefixMatchIsFullMatchOfPrefix(ps[1..], s);
        if |s| > 0 {
          PrefixMatchIsFullMatchOfPrefix(ps, s[1..]);
        }
        if PrefixMatch(ps, s) {
          if PrefixMatch(ps[1..], s) {
            var k :| 0 <= k <= |s| && FullMatch(ps[1..], s[..k]);
            assert FullMatch(ps, s[..k]);
          } else {
            var k :| 0 <= k <= |s[1..]| && FullMatch(ps, s[1..][..k]);
            PrefixOfTail(s, k + 1);
            assert FullMatch(ps, s[..k + 1]);
          }
        }
        if exists k :: 0 <= k <= |s| && FullMatch(ps, s[..k]) {
          var k :| 0 <= k <= |s| && FullMatch(ps, s[..k]);
          if !FullMatch(ps[1..], s[..k]) {
            PrefixOfTail(s, k);
            assert FullMatch(ps, s[1..][..k - 1]);
          }
        }
      case _ =>
        if |s| > 0 {
          PrefixMatchIsFullMatchOfPrefix(ps[1..], s[1..]);
          if PrefixMatch(ps, s) {
            var k :| 0 <= k <= |s[1..]| && FullMatch(ps[1..], s[1..][..k]);
            PrefixOfTail(s, k + 1);
            assert FullMatch(ps, s[..k + 1]);
          }
          if exists k :: 0 <= k <= |s| && FullMatch(ps, s[..k]) {
            var k :| 0 <= k <= |s| && FullMatch(ps, s[..k]);
            PrefixOfTail(s, k);
            assert FullMatch(ps[1..], s[1..][..k - 1]);
          }
        }
    }
  }

  /** The match is not anchored at the end: appending to a matched name keeps it matched. */
  lemma {:induction false} PrefixMatchExtends(ps: seq<Sym>, s: string, t: string)
    requires PrefixMatch(ps, s)
    ensures PrefixMatch(ps, s + t)
    decreases |ps|, |s|
  {
    if ps != [] {
      match ps[0]
      case AnyRun =>
        if PrefixMatch(ps[1..], s) {
          PrefixMatchExtends(ps[1..], s, t);
        } else {
          PrefixMatchExtends(ps, s[1..], t);
          assert (s + t)[1..] == s[1..] + t;
        }
      case _ =>
        PrefixMatchExtends(ps[1..], s[1..], t);
        assert (s + t)[1..] == s[1..] + t;
    }
  }

  /** A longer name sharing a selected name as prefix is selected too. */
  lemma LongerNameSelected(name: string, suffix: string, patterns: seq<string>)
    requires ShouldDownload(name, patterns)
    ensures ShouldDownload(name + suffix, patterns)
  {
    var i :| 0 <= i < |patterns| && Selects(patterns[i], name);
    PrefixMatchExtends(Compile(StarToDotStar(patterns[i])), name, suffix);
  }

  /** The default pattern list selects exactly the names that are non-empty and do not start with a line feed. */
  lemma DefaultSelectsEveryName(name: string)
    ensures ShouldDownload(name, DefaultPatterns) <==> |name| > 0 && Wild(name[0])
  {
    assert StarToDotStar(".*") == "..*";
    assert Compile("..*") == [AnyChar, AnyRun];
    if |name| > 0 {
      assert PrefixMatch([AnyRun], name[1..]);
    }
  }

  /** With no patterns nothing is selected. */
  lemma NoPatternsSelectNothing(name: string)
    ensures !ShouldDownload(name, [])
  {
  }

  lemma SymbolStep(x: Sym, c: char, ps: seq<Sym>, s: string)
    requires x == Lit(c) || (x == AnyChar && Wild(c))
    requires PrefixMatch(ps, s)
    ensures PrefixMatch([x] + ps, [c] + s)
  {
    assert ([x] + ps)[1..] == ps;
    assert ([c] + s)[1..] == s;
  }

  /** A run absorbs any word without line feeds in front of what the rest of the pattern matches. */
  lemma {:induction false} RunAbsorbs(ps: seq<Sym>, w: string, s: string)
    requires forall i :: 0 <= i < |w| ==> Wild(w[i])
    requires PrefixMatch(ps, s)
    ensures PrefixMatch([AnyRun] + ps, w + s)
    decreases |w|
  {
    if w == [] {
      assert ([AnyRun] + ps)[1..] == ps;
      assert w + s == s;
    } else {
      RunAbsorbs(ps, w[1..], s);
      assert (w + s)[1..] == w[1..] + s;
    }
  }

  function Lits(w: string): seq<Sym> {
    if w == [] then [] else [Lit(w[0])] + Lits(w[1..])
  }

  /** Literal symbols match exactly their own characters. */
  lemma {:induction false} LiteralsMatch(w: string, ps: seq<Sym>, s: string)
    requires PrefixMatch(ps, s)
    ensures PrefixMatch(Lits(w) + ps, w + s)
    decreases |w|
  {
    if w == [] {
      assert Lits(w) + ps == ps && w + s == s;
    } else {
      LiteralsMatch(w[1..], ps, s);
      SymbolStep(Lit(w[0]), w[0], Lits(w[1..]) + ps, w[1..] + s);
      assert [Lit(w[0])] + (Lits(w[1..]) + ps) == Lits(w) + ps;
      assert [w[0]] + (w[1..] + s) == w + s;
    }
  }

  /** The running example: a pattern for Android packages and three asset names. */
  const ApkPattern := "app-*.apk"
  const ApkPackage := "app-release.apk"
  const ApkChecksum := "app-release.apk.sha256"
  const Readme := "readme.txt"

  /** The glob reading of the `.apk` tail matches `.apk`. */
  lemma ApkTailMatches()
    ensures PrefixMatch([AnyChar] + Lits("apk"), ".apk")
  {
    LiteralsMatch("apk", [], "");
    assert Lits("apk") + [] == Lits("apk");
    assert "apk" + "" == "apk";
    SymbolStep(AnyChar, '.', Lits("apk"), "apk");
    assert ['.'] + "apk" == ".apk";
  }

  /** The glob reading of `app-*.apk`: four literals, a run, a wildcard, three literals. */
  lemma ApkSymbols()
    ensures Symbols(ApkPattern) == Lits("app-") + ([AnyRun] + ([AnyChar] + Lits("apk")))
  {
    assert Lits("app-") == [Lit('a'), Lit('p'), Lit('p'), Lit('-')];
    assert Lits("apk") == [Lit('a'), Lit('p'), Lit('k')];
  }

  /** The glob reading of `app-*.apk` matches `app-release.apk`: the run absorbs `release`. */
  lemma ApkGlobMatches()
    ensures PrefixMatch(Symbols(ApkPattern), ApkPackage)
  {
    var tail := [AnyChar] + Lits("apk");
    ApkTailMatches();
    RunAbsorbs(tail, "release", ".apk");
    LiteralsMatch("app-", [AnyRun] + tail, "release" + ".apk");
    ApkSymbols();
    assert "app-" + ("release" + ".apk") == ApkPackage;
  }

  /** A single pattern selects by its glob reading. */
  lemma SinglePattern(name: string, pattern: string)
    ensures ShouldDownload(name, [pattern]) <==> PrefixMatch(Symbols(pattern), name)
  {
    SelectsByGlob(pattern, name);
    assert [pattern][0] == pattern;
  }

  /** A single pattern whose glob reading matches a name selects every name that starts with it. */
  lemma PrefixSelected(pattern: string, name: string, longer: string)
    requires PrefixMatch(Symbols(pattern), name)
    requires name <= longer
    ensures ShouldDownload(longer, [pattern])
  {
    assert longer == name + longer[|name|..];
    PrefixMatchExtends(Symbols(pattern), name, longer[|name|..]);
    SinglePattern(longer, pattern);
  }

  /** `app-*.apk` selects `app-release.apk`. */
  lemma ApkSelectsPackage()
    ensures ShouldDownload(ApkPackage, [ApkPattern])
  {
    ApkGlobMatches();
    SinglePattern(ApkPackage, ApkPattern);
  }

  /** By the open end, `app-*.apk` also selects `app-release.apk.sha256`. */
  lemma ApkSelectsChecksum()
    ensures ShouldDownload(ApkChecksum, [ApkPattern])
  {
    ApkGlobMatches();
    assert ApkChecksum == ApkPackage + ".sha256";
    PrefixSelected(ApkPattern, ApkPackage, ApkChecksum);
  }

  /** `app-*.apk` does not select `readme.txt`. */
  lemma ApkSkipsReadme()
    ensures !ShouldDownload(Readme, [ApkPattern])
  {
    SinglePattern(Readme, ApkPattern);
    ApkSymbols();
    assert Symbols(ApkPattern)[0] == Lit('a');
    assert Readme[0] == 'r';
  }
}
