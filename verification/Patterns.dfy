/** Regular expressions rewritten as LIKE patterns: the two `regexToLike`
    functions, the LIKE predicate of SQL-92 (section 8.5) and regex search. */
module Patterns {
  import opened Values

  /** Go's strings.ReplaceAll for a non-empty `from`: left to right, without overlaps. */
  function ReplaceAll(s: string, from: string, to: string): string
    requires from != []
  {
    if s == [] then []
    else if from <= s then to + ReplaceAll(s[|from|..], from, to)
    else [s[0]] + ReplaceAll(s[1..], from, to)
  }

  /** LIKE: `%` stands for any string, `_` for one character, and the escape
      character, if there is one, takes the wildcard after it literally. An escape
      before anything else is an error; no string is like such a pattern. */
  ghost predicate Like(pat: string, s: string, escape: Option<char>)
    decreases |pat|
  {
    if pat == [] then s == []
    else if escape == Some(pat[0]) then
      && |pat| > 1 && (pat[1] == '%' || pat[1] == '_' || pat[1] == pat[0])
      && s != [] && s[0] == pat[1] && Like(pat[2..], s[1..], escape)
    else if pat[0] == '%' then exists k | 0 <= k <= |s| :: Like(pat[1..], s[k..], escape)
    else s != [] && (pat[0] == '_' || s[0] == pat[0]) && Like(pat[1..], s[1..], escape)
  }

  /** The regular expressions the conversion is for: literals, `.`, `.*`, `.+`. */
  datatype Piece = Char(c: char) | AnyOne | AnyMany | AnySome

  /** The characters that are not literals of such an expression. */
  const META: string := ".*+?^$|()[]{}\\\n"

  predicate Plain(ps: seq<Piece>) {
    forall i | 0 <= i < |ps| :: ps[i].Char? ==> ps[i].c !in META
  }

  predicate OneLine(s: string) {
    '\n' !in s
  }

  /** The strings one piece matches; `.` matches a newline only where it is told to. */
  predicate PieceMatches(p: Piece, t: string, newline: bool) {
    match p
    case Char(c) => t == [c]
    case AnyOne => |t| == 1 && (newline || OneLine(t))
    case AnyMany => newline || OneLine(t)
    case AnySome => |t| >= 1 && (newline || OneLine(t))
  }

  /** Regex matching of a whole string. */
  ghost predicate Matches(ps: seq<Piece>, s: string, newline: bool)
    decreases |ps|, 1
  {
    if ps == [] then s == [] else exists k | 0 <= k <= |s| :: MatchesAt(ps, s, k, newline)
  }

  /** The first piece takes `k` characters. */
  ghost predicate MatchesAt(ps: seq<Piece>, s: string, k: nat, newline: bool)
    requires ps != [] && k <= |s|
    decreases |ps|, 0
  {
    PieceMatches(ps[0], s[..k], newline) && Matches(ps[1..], s[k..], newline)
  }

  /** Some stretch of `s` matches, at the anchored ends if any. */
  ghost predicate Found(start: bool, ps: seq<Piece>, end: bool, s: string, newline: bool) {
    exists i, j | 0 <= i <= j <= |s| ::
      (start ==> i == 0) && (end ==> j == |s|) && Matches(ps, s[i..j], newline)
  }

  /** Regex search, in which `.` does not match a newline. */
  ghost predicate Search(start: bool, ps: seq<Piece>, end: bool, s: string) {
    Found(start, ps, end, s, false)
  }

  // ---- The rewriting passes

  /** A piece's text after the first `k` passes of the query builder's conversion. */
  function Show(k: nat, p: Piece): string {
    match p
    case Char(c) => if (k >= 1 && c == '%') || (k >= 2 && c == '_') then ['\\', c] else [c]
    case AnyMany => if k >= 3 then "%" else ".*"
    case AnySome => if k >= 4 then "_%" else ".+"
    case AnyOne => if k >= 5 then "_" else "."
  }

  function Text(k: nat, ps: seq<Piece>): string {
    if ps == [] then [] else Show(k, ps[0]) + Text(k, ps[1..])
  }

  function Caret(start: bool): string { if start then "^" else "" }

  function Dollar(end: bool): string { if end then "$" else "" }

  /** The text of a regular expression. */
  function Regex(start: bool, ps: seq<Piece>, end: bool): string {
    Caret(start) + Text(0, ps) + Dollar(end)
  }

  function TrimAnchors(pattern: string): string {
    var p := if HasPrefix(pattern, "^") then pattern[1..] else pattern;
    if HasSuffix(pattern, "$") && HasSuffix(p, "$") then p[..|p| - 1] else p
  }

  function AddWildcards(pattern: string, body: string): string {
    (if HasPrefix(pattern, "^") then "" else "%") + body + (if HasSuffix(pattern, "$") then "" else "%")
  }

  /** What the k-th pass looks for, and what it puts there. */
  function From(k: nat): string {
    match k
    case 0 => "%"
    case 1 => "_"
    case 2 => ".*"
    case 3 => ".+"
    case _ => "."
  }

  function To(k: nat): string {
    match k
    case 0 => "\\%"
    case 1 => "\\_"
    case 2 => "%"
    case 3 => "_%"
    case _ => "_"
  }

  function Rewrite(k: nat, s: string): string
    requires k <= 5
  {
    if k == 0 then s else ReplaceAll(Rewrite(k - 1, s), From(k - 1), To(k - 1))
  }

  /** The query builder's `regexToLike` as a function. */
  function LikeText(pattern: string): string {
    AddWildcards(pattern, Rewrite(5, TrimAnchors(pattern)))
  }

  /** The query builder's `regexToLike`. */
  method RegexToLike(text: string) returns (pattern: string)
    ensures pattern == LikeText(text)
  {
    pattern := text;
    var isStartAnchored := HasPrefix(pattern, "^");
    var isEndAnchored := HasSuffix(pattern, "$");
    if isStartAnchored {
      pattern := pattern[1..];
    }
    if isEndAnchored && HasSuffix(pattern, "$") {
      pattern := pattern[..|pattern| - 1];
    }
    ghost var trimmed := pattern;
    pattern := ReplaceAll(pattern, "%", "\\%");
    assert pattern == Rewrite(1, trimmed);
    pattern := ReplaceAll(pattern, "_", "\\_");
    assert pattern == Rewrite(2, trimmed);
    pattern := ReplaceAll(pattern, ".*", "%");
    assert pattern == Rewrite(3, trimmed);
    pattern := ReplaceAll(pattern, ".+", "_%");
    assert pattern == Rewrite(4, trimmed);
    pattern := ReplaceAll(pattern, ".", "_");
    assert pattern == Rewrite(5, trimmed);
    if !isStartAnchored {
      pattern := "%" + pattern;
    }
    if !isEndAnchored {
      pattern := pattern + "%";
    }
  }

  function DotPasses(pattern: string): string {
    ReplaceAll(ReplaceAll(ReplaceAll(pattern, ".", "_"), ".*", "%"), ".+", "_%")
  }

  function AnchorsToWildcards(p: string): string {
    var q := if HasPrefix(p, "^") then p[1..] else "%" + p;
    if HasSuffix(q, "$") then q[..|q| - 1] else q + "%"
  }

  /** The query translator's `regexToLike` as a function: `.` goes first and
      nothing is escaped, so the passes for `.*` and `.+` find nothing. */
  function TranslatorLikeText(pattern: string): string {
    AnchorsToWildcards(DotPasses(pattern))
  }

  /** The query translator's `regexToLike`. */
  method TranslatorRegexToLike(text: string) returns (pattern: string)
    ensures pattern == TranslatorLikeText(text)
  {
    pattern := ReplaceAll(text, ".", "_");
    pattern := ReplaceAll(pattern, ".*", "%");
    pattern := ReplaceAll(pattern, ".+", "_%");
    if !HasPrefix(pattern, "^") {
      pattern := "%" + pattern;
    } else {
      pattern := pattern[1..];
    }
    if !HasSuffix(pattern, "$") {
      pattern := pattern + "%";
    } else {
      pattern := pattern[..|pattern| - 1];
    }
  }

  // ---- The passes together are one translation, piece by piece

  predicate StartsPiece(rest: string) {
    rest == [] || (rest[0] != '*' && rest[0] != '+')
  }

  lemma {:induction false} TextStartsPiece(k: nat, ps: seq<Piece>)
    requires Plain(ps)
    ensures StartsPiece(Text(k, ps))
  {
    if ps != [] {
      assert Show(k, ps[0])[0] == Text(k, ps)[0];
    }
  }

  lemma {:induction false} ReplaceSkips(a: string, rest: string, from: string, to: string)
    requires from != []
    requires forall i | 0 <= i < |a| :: !(from <= (a + rest)[i..])
    ensures ReplaceAll(a + rest, from, to) == a + ReplaceAll(rest, from, to)
  {
    if a == [] {
      assert a + rest == rest;
    } else {
      var s := a + rest;
      assert s[1..] == a[1..] + rest;
      assert s[0..] == s;
      forall i | 0 <= i < |a[1..]| ensures !(from <= (a[1..] + rest)[i..]) {
        assert (a[1..] + rest)[i..] == s[i + 1..];
      }
      ReplaceSkips(a[1..], rest, from, to);
      assert a == [a[0]] + a[1..];
    }
  }

  lemma {:induction false} ReplaceHits(rest: string, from: string, to: string)
    requires from != []
    ensures ReplaceAll(from + rest, from, to) == to + ReplaceAll(rest, from, to)
  {
    assert (from + rest)[|from|..] == rest;
  }

  predicate Hit(k: nat, p: Piece) {
    match k
    case 0 => p == Char('%')
    case 1 => p == Char('_')
    case 2 => p == AnyMany
    case 3 => p == AnySome
    case _ => p == AnyOne
  }

  lemma {:induction false} ShowChanges(k: nat, p: Piece)
    requires k < 5
    ensures Hit(k, p) ==> Show(k, p) == From(k) && Show(k + 1, p) == To(k)
    ensures !Hit(k, p) ==> Show(k + 1, p) == Show(k, p)
  {
  }

  /** A piece the pass does not look for has no stretch that it would find. */
  lemma {:induction false} PassMisses(k: nat, p: Piece, rest: string, i: nat)
    requires k < 5 && Plain([p]) && StartsPiece(rest) && !Hit(k, p) && i < |Show(k, p)|
    ensures !(From(k) <= (Show(k, p) + rest)[i..])
  {
    var a := Show(k, p);
    var t := (a + rest)[i..];
    assert p.Char? ==> [p][0].c !in META;
    assert t[0] == a[i];
    if |From(k)| > 1 && |t| > 1 {
      assert t[1] == if i + 1 < |a| then a[i + 1] else rest[0];
    }
  }

  lemma {:induction false} PassOnPiece(k: nat, p: Piece, rest: string)
    requires k < 5 && Plain([p]) && StartsPiece(rest)
    ensures ReplaceAll(Show(k, p) + rest, From(k), To(k)) ==
            Show(k + 1, p) + ReplaceAll(rest, From(k), To(k))
  {
    ShowChanges(k, p);
    if Hit(k, p) {
      ReplaceHits(rest, From(k), To(k));
    } else {
      forall i: nat | i < |Show(k, p)| {
        PassMisses(k, p, rest, i);
      }
      ReplaceSkips(Show(k, p), rest, From(k), To(k));
    }
  }

  lemma {:induction false} PassOnText(k: nat, ps: seq<Piece>)
    requires k < 5 && Plain(ps)
    ensures ReplaceAll(Text(k, ps), From(k), To(k)) == Text(k + 1, ps)
  {
    if ps != [] {
      TextStartsPiece(k, ps[1..]);
      PassOnPiece(k, ps[0], Text(k, ps[1..]));
      PassOnText(k, ps[1..]);
    }
  }

  lemma {:induction false} RewriteIsText(k: nat, ps: seq<Piece>)
    requires k <= 5 && Plain(ps)
    ensures Rewrite(k, Text(0, ps)) == Text(k, ps)
  {
    if k > 0 {
      RewriteIsText(k - 1, ps);
      PassOnText(k - 1, ps);
    }
  }

  // ---- LIKE on the translation is regex matching

  /** The wildcard characters of LIKE among a pattern's literals. */
  predicate HasWildcardLiteral(ps: seq<Piece>) {
    exists i | 0 <= i < |ps| :: ps[i] == Char('%') || ps[i] == Char('_')
  }

  lemma {:induction false} MatchesOneCharacter(ps: seq<Piece>, s: string, newline: bool)
    requires ps != [] && (ps[0].Char? || ps[0].AnyOne?)
    ensures Matches(ps, s, newline) <==>
      s != [] && PieceMatches(ps[0], s[..1], newline) && Matches(ps[1..], s[1..], newline)
  {
    assert s != [] ==>
      (MatchesAt(ps, s, 1, newline) <==> PieceMatches(ps[0], s[..1], newline) && Matches(ps[1..], s[1..], newline));
  }

  lemma {:induction false} MatchesPick(ps: seq<Piece>, s: string, newline: bool) returns (k: nat)
    requires ps != [] && Matches(ps, s, newline)
    ensures k <= |s| && MatchesAt(ps, s, k, newline)
  {
    k :| 0 <= k <= |s| && MatchesAt(ps, s, k, newline);
  }

  lemma {:induction false} LikePiece(ps: seq<Piece>, text: string, s: string, escape: Option<char>)
    requires ps != [] && Plain(ps[..1])
    requires escape == Some('\\') || (escape == None && ps[0] != Char('%') && ps[0] != Char('_'))
    requires forall k | 0 <= k <= |s| :: Like(text, s[k..], escape) <==> Matches(ps[1..], s[k..], true)
    ensures Like(Show(5, ps[0]) + text, s, escape) <==> Matches(ps, s, true)
  {
    var pattern := Show(5, ps[0]) + text;
    assert pattern[|Show(5, ps[0])|..] == text;
    assert s != [] ==> s[..1] == [s[0]];
    match ps[0] {
      case Char(c) =>
        assert ps[..1][0].c !in META;
        MatchesOneCharacter(ps, s, true);
      case AnyOne =>
        MatchesOneCharacter(ps, s, true);
      case AnyMany =>
        assert forall k | 0 <= k <= |s| :: MatchesAt(ps, s, k, true) <==> Like(text, s[k..], escape);
      case AnySome =>
        LikeSome(ps, text, s, escape);
    }
  }

  lemma {:induction false} LikeSome(ps: seq<Piece>, text: string, s: string, escape: Option<char>)
    requires ps != [] && ps[0] == AnySome
    requires escape == Some('\\') || escape == None
    requires forall k | 0 <= k <= |s| :: Like(text, s[k..], escape) <==> Matches(ps[1..], s[k..], true)
    ensures Like("_%" + text, s, escape) <==> Matches(ps, s, true)
  {
    assert ("_%" + text)[1..] == "%" + text && ("%" + text)[1..] == text;
    if s != [] {
      var t := s[1..];
      assert forall k | 0 <= k <= |t| :: t[k..] == s[k + 1..];
      assert Like("%" + text, t, escape) <==> exists k | 0 <= k <= |t| :: Like(text, t[k..], escape);
      if Matches(ps, s, true) {
        var k := MatchesPick(ps, s, true);
        assert Like(text, t[k - 1..], escape);
      }
      if Like("%" + text, t, escape) {
        var k :| 0 <= k <= |t| && Like(text, t[k..], escape);
        assert MatchesAt(ps, s, k + 1, true);
      }
    }
  }

  lemma {:induction false} LikeMatches(ps: seq<Piece>, s: string, escape: Option<char>)
    requires Plain(ps)
    requires escape == Some('\\') || (escape == None && !HasWildcardLiteral(ps))
    ensures Like(Text(5, ps), s, escape) <==> Matches(ps, s, true)
    decreases ps
  {
    if ps != [] {
      var rest := ps[1..];
      assert HasWildcardLiteral(rest) ==> HasWildcardLiteral(ps);
      forall k | 0 <= k <= |s|
        ensures Like(Text(5, rest), s[k..], escape) <==> Matches(rest, s[k..], true)
      {
        LikeMatches(rest, s[k..], escape);
      }
      LikePiece(ps, Text(5, rest), s, escape);
    }
  }

  lemma {:induction false} MatchesStep(p: Piece, ps: seq<Piece>, s: string, k: nat, newline: bool)
    requires k <= |s| && PieceMatches(p, s[..k], newline) && Matches(ps, s[k..], newline)
    ensures Matches([p] + ps, s, newline)
  {
    assert ([p] + ps)[1..] == ps;
    assert MatchesAt([p] + ps, s, k, newline);
  }

  lemma {:induction false} MatchesHead(ps: seq<Piece>, s: string, j: nat, newline: bool) returns (k: nat)
    requires ps != [] && j <= |s| && Matches(ps, s[..j], newline)
    ensures k <= j && PieceMatches(ps[0], s[..k], newline)
    ensures Matches(ps[1..], s[k..][..j - k], newline) && s[k..][j - k..] == s[j..]
  {
    var t := s[..j];
    k := MatchesPick(ps, t, newline);
    assert t[..k] == s[..k] && t[k..] == s[k..][..j - k];
  }

  lemma {:induction false} MatchesJoin(a: seq<Piece>, b: seq<Piece>, s: string, j: nat, newline: bool)
    requires j <= |s| && Matches(a, s[..j], newline) && Matches(b, s[j..], newline)
    ensures Matches(a + b, s, newline)
    decreases a
  {
    if a == [] {
      assert a + b == b && s[j..] == s;
    } else {
      var k := MatchesHead(a, s, j, newline);
      MatchesJoin(a[1..], b, s[k..], j - k, newline);
      MatchesStep(a[0], a[1..] + b, s, k, newline);
      assert a + b == [a[0]] + (a[1..] + b);
    }
  }

  lemma {:induction false} MatchesSplit(a: seq<Piece>, b: seq<Piece>, s: string, newline: bool) returns (j: nat)
    requires Matches(a + b, s, newline)
    ensures j <= |s| && Matches(a, s[..j], newline) && Matches(b, s[j..], newline)
    decreases a
  {
    if a == [] {
      assert a + b == b && s[0..] == s;
      j := 0;
    } else {
      assert (a + b)[1..] == a[1..] + b;
      var k := MatchesPick(a + b, s, newline);
      var i := MatchesSplit(a[1..], b, s[k..], newline);
      j := k + i;
      assert s[..j][k..] == s[k..][..i] && s[k..][i..] == s[j..] && s[..j][..k] == s[..k];
      assert MatchesAt(a, s[..j], k, newline);
    }
  }

  lemma {:induction false} AnyManyMatches(s: string, newline: bool)
    ensures newline || OneLine(s) ==> Matches([AnyMany], s, newline)
  {
    assert s[..|s|] == s && s[|s|..] == [];
    assert newline || OneLine(s) ==> MatchesAt([AnyMany], s, |s|, newline);
  }

  function Padding(anchored: bool): seq<Piece> {
    if anchored then [] else [AnyMany]
  }

  /** Where `.` matches a newline, searching is matching with any text allowed at the
      ends that are not anchored. */
  lemma {:induction false} FoundIsMatch(start: bool, ps: seq<Piece>, end: bool, s: string)
    ensures Found(start, ps, end, s, true) <==> Matches(Padding(start) + (ps + Padding(end)), s, true)
  {
    if Found(start, ps, end, s, true) {
      var i, j :| 0 <= i <= j <= |s| && (start ==> i == 0) && (end ==> j == |s|) && Matches(ps, s[i..j], true);
      assert s[i..][..j - i] == s[i..j] && s[i..][j - i..] == s[j..];
      AnyManyMatches(s[j..], true);
      MatchesJoin(ps, Padding(end), s[i..], j - i, true);
      AnyManyMatches(s[..i], true);
      MatchesJoin(Padding(start), ps + Padding(end), s, i, true);
    }
    if Matches(Padding(start) + (ps + Padding(end)), s, true) {
      var i := MatchesSplit(Padding(start), ps + Padding(end), s, true);
      var k := MatchesSplit(ps, Padding(end), s[i..], true);
      assert s[i..][..k] == s[i..i + k];
    }
  }

  // ---- The whole conversion

  /** A conversion without passes: each piece on its own. */
  function OnePass(start: bool, ps: seq<Piece>, end: bool): string {
    (if start then "" else "%") + Text(5, ps) + (if end then "" else "%")
  }

  lemma {:induction false} TextHasNoAnchor(ps: seq<Piece>)
    requires Plain(ps)
    ensures Unanchored(Text(0, ps))
  {
    if ps != [] {
      assert ps[0].Char? ==> ps[0].c !in META;
      TextHasNoAnchor(ps[1..]);
    }
  }

  predicate Unanchored(t: string) {
    forall i | 0 <= i < |t| :: t[i] != '^' && t[i] != '$'
  }

  lemma {:induction false} AnchorTests(start: bool, t: string, end: bool)
    requires Unanchored(t)
    ensures var p := Caret(start) + t + Dollar(end);
      (HasPrefix(p, "^") <==> start) && (HasSuffix(p, "$") <==> end)
  {
    var p := Caret(start) + t + Dollar(end);
    assert p != [] ==> (HasPrefix(p, "^") <==> p[0] == '^');
    assert p != [] ==> (HasSuffix(p, "$") <==> p[|p| - 1] == '$');
  }

  lemma {:induction false} WithoutCaret(start: bool, t: string, end: bool)
    requires Unanchored(t)
    ensures var p := Caret(start) + t + Dollar(end);
      (if HasPrefix(p, "^") then p[1..] else p) == t + Dollar(end)
  {
    AnchorTests(start, t, end);
    var p := Caret(start) + t + Dollar(end);
    if start {
      assert p[1..] == t + Dollar(end);
    } else {
      assert p == t + Dollar(end);
    }
  }

  lemma {:induction false} AnchorsTrimmed(start: bool, t: string, end: bool)
    requires Unanchored(t)
    ensures TrimAnchors(Caret(start) + t + Dollar(end)) == t
  {
    WithoutCaret(start, t, end);
    AnchorTests(start, t, end);
    AnchorTests(false, t, end);
    var q := t + Dollar(end);
    assert Caret(false) + t + Dollar(end) == q;
    assert q[..|t|] == t;
  }

  /** The chain of passes is the translation piece by piece. */
  lemma {:induction false} PassesAreOnePass(start: bool, ps: seq<Piece>, end: bool)
    requires Plain(ps)
    ensures LikeText(Regex(start, ps, end)) == OnePass(start, ps, end)
  {
    TextHasNoAnchor(ps);
    AnchorTests(start, Text(0, ps), end);
    AnchorsTrimmed(start, Text(0, ps), end);
    RewriteIsText(5, ps);
  }

  lemma {:induction false} TextConcat(k: nat, a: seq<Piece>, b: seq<Piece>)
    ensures Text(k, a + b) == Text(k, a) + Text(k, b)
    decreases a
  {
    if a == [] {
      assert a + b == b;
    } else {
      TextConcat(k, a[1..], b);
      assert (a + b)[1..] == a[1..] + b && (a + b)[0] == a[0];
      ConcatAssociates(Show(k, a[0]), Text(k, a[1..]), Text(k, b));
    }
  }

  lemma {:induction false} OnePassIsText(start: bool, ps: seq<Piece>, end: bool)
    ensures OnePass(start, ps, end) == Text(5, Padding(start) + (ps + Padding(end)))
  {
    TextConcat(5, Padding(start), ps + Padding(end));
    TextConcat(5, ps, Padding(end));
    assert Text(5, [AnyMany]) == "%";
  }

  lemma {:induction false} PaddingIsPlain(start: bool, ps: seq<Piece>, end: bool)
    requires Plain(ps)
    ensures var padded := Padding(start) + (ps + Padding(end));
      Plain(padded) && (HasWildcardLiteral(padded) ==> HasWildcardLiteral(ps))
  {
    var padded := Padding(start) + (ps + Padding(end));
    var n := |Padding(start)|;
    forall i | 0 <= i < |padded| && padded[i].Char?
      ensures 0 <= i - n < |ps| && padded[i] == ps[i - n]
    {
    }
  }

  /** With a backslash as LIKE's escape character, the converted pattern is LIKE
      exactly the strings in which the expression is found with `.` matching newlines. */
  lemma {:induction false} LikeFinds(start: bool, ps: seq<Piece>, end: bool, s: string, escape: Option<char>)
    requires Plain(ps)
    requires escape == Some('\\') || (escape == None && !HasWildcardLiteral(ps))
    ensures Like(LikeText(Regex(start, ps, end)), s, escape) <==> Found(start, ps, end, s, true)
  {
    var padded := Padding(start) + (ps + Padding(end));
    PaddingIsPlain(start, ps, end);
    PassesAreOnePass(start, ps, end);
    OnePassIsText(start, ps, end);
    LikeMatches(padded, s, escape);
    FoundIsMatch(start, ps, end, s);
  }

  // ---- Strings of several lines

  predicate AllChars(ps: seq<Piece>) {
    forall i | 0 <= i < |ps| :: ps[i].Char?
  }

  function WithoutHead(ps: seq<Piece>): seq<Piece> {
    if ps != [] && ps[0] == AnyMany then WithoutHead(ps[1..]) else ps
  }

  function WithoutTail(ps: seq<Piece>): seq<Piece> {
    if ps != [] && ps[|ps| - 1] == AnyMany then WithoutTail(ps[..|ps| - 1]) else ps
  }

  /** What has to be found: a `.*` at an end that is not anchored asks for nothing. */
  function Core(start: bool, ps: seq<Piece>, end: bool): seq<Piece> {
    var headless := if start then ps else WithoutHead(ps);
    if end then headless else WithoutTail(headless)
  }

  lemma {:induction false} SameOnLines(ps: seq<Piece>, s: string)
    requires OneLine(s) || AllChars(ps)
    ensures Matches(ps, s, true) <==> Matches(ps, s, false)
    decreases ps
  {
    if ps != [] {
      forall k | 0 <= k <= |s|
        ensures MatchesAt(ps, s, k, true) <==> MatchesAt(ps, s, k, false)
      {
        SameOnLines(ps[1..], s[k..]);
      }
    }
  }

  lemma {:induction false} FoundWithoutFirst(ps: seq<Piece>, end: bool, s: string, newline: bool)
    requires ps != [] && ps[0] == AnyMany
    ensures Found(false, ps, end, s, newline) <==> Found(false, ps[1..], end, s, newline)
  {
    assert ps == [AnyMany] + ps[1..];
    if Found(false, ps, end, s, newline) {
      var i, j :| 0 <= i <= j <= |s| && (end ==> j == |s|) && Matches(ps, s[i..j], newline);
      var k := MatchesSplit([AnyMany], ps[1..], s[i..j], newline);
      assert s[i..j][k..] == s[i + k..j];
    }
    if Found(false, ps[1..], end, s, newline) {
      var i, j :| 0 <= i <= j <= |s| && (end ==> j == |s|) && Matches(ps[1..], s[i..j], newline);
      assert s[i..j][..0] == [] && s[i..j][0..] == s[i..j];
      MatchesStep(AnyMany, ps[1..], s[i..j], 0, newline);
    }
  }

  lemma {:induction false} LastAddsNothing(ps: seq<Piece>, t: string, newline: bool)
    requires ps != [] && ps[|ps| - 1] == AnyMany && Matches(ps[..|ps| - 1], t, newline)
    ensures Matches(ps, t, newline)
  {
    assert ps == ps[..|ps| - 1] + [AnyMany];
    assert t[..|t|] == t && t[|t|..] == [];
    AnyManyMatches([], newline);
    MatchesJoin(ps[..|ps| - 1], [AnyMany], t, |t|, newline);
  }

  lemma {:induction false} LastNotNeeded(ps: seq<Piece>, t: string, newline: bool) returns (k: nat)
    requires ps != [] && ps[|ps| - 1] == AnyMany && Matches(ps, t, newline)
    ensures k <= |t| && Matches(ps[..|ps| - 1], t[..k], newline)
  {
    assert ps == ps[..|ps| - 1] + [AnyMany];
    k := MatchesSplit(ps[..|ps| - 1], [AnyMany], t, newline);
  }

  lemma {:induction false} FoundWithoutLast(start: bool, ps: seq<Piece>, s: string, newline: bool)
    requires ps != [] && ps[|ps| - 1] == AnyMany
    ensures Found(start, ps, false, s, newline) <==> Found(start, ps[..|ps| - 1], false, s, newline)
  {
    hide Matches;
    var init := ps[..|ps| - 1];
    if Found(start, ps, false, s, newline) {
      var i, j :| 0 <= i <= j <= |s| && (start ==> i == 0) && Matches(ps, s[i..j], newline);
      var k := LastNotNeeded(ps, s[i..j], newline);
      assert s[i..j][..k] == s[i..i + k];
    }
    if Found(start, init, false, s, newline) {
      var i, j :| 0 <= i <= j <= |s| && (start ==> i == 0) && Matches(init, s[i..j], newline);
      LastAddsNothing(ps, s[i..j], newline);
    }
  }

  lemma {:induction false} FoundWithoutHead(ps: seq<Piece>, end: bool, s: string, newline: bool)
    ensures Found(false, ps, end, s, newline) <==> Found(false, WithoutHead(ps), end, s, newline)
    decreases ps
  {
    if ps != [] && ps[0] == AnyMany {
      FoundWithoutFirst(ps, end, s, newline);
      FoundWithoutHead(ps[1..], end, s, newline);
    }
  }

  lemma {:induction false} FoundWithoutTail(start: bool, ps: seq<Piece>, s: string, newline: bool)
    ensures Found(start, ps, false, s, newline) <==> Found(start, WithoutTail(ps), false, s, newline)
    decreases ps
  {
    if ps != [] && ps[|ps| - 1] == AnyMany {
      FoundWithoutLast(start, ps, s, newline);
      FoundWithoutTail(start, ps[..|ps| - 1], s, newline);
    }
  }

  lemma {:induction false} FoundCore(start: bool, ps: seq<Piece>, end: bool, s: string, newline: bool)
    ensures Found(start, ps, end, s, newline) <==> Found(start, Core(start, ps, end), end, s, newline)
  {
    hide Found;
    var headless := if start then ps else WithoutHead(ps);
    if !start {
      FoundWithoutHead(ps, end, s, newline);
    }
    if !end {
      FoundWithoutTail(start, headless, s, newline);
    }
  }

  lemma {:induction false} WithoutHeadPlain(ps: seq<Piece>)
    requires Plain(ps)
    ensures Plain(WithoutHead(ps))
    ensures WithoutHead(ps) != [] ==> WithoutHead(ps)[0] != AnyMany
  {
    if ps != [] && ps[0] == AnyMany {
      WithoutHeadPlain(ps[1..]);
    }
  }

  lemma {:induction false} WithoutTailPlain(ps: seq<Piece>)
    requires Plain(ps)
    ensures Plain(WithoutTail(ps)) && WithoutTail(ps) <= ps
    ensures WithoutTail(ps) != [] ==> WithoutTail(ps)[|WithoutTail(ps)| - 1] != AnyMany
  {
    if ps != [] && ps[|ps| - 1] == AnyMany {
      WithoutTailPlain(ps[..|ps| - 1]);
    }
  }

  /** Wildcards at the ends of what has to be found: only where the end is anchored. */
  predicate Trimmed(start: bool, ps: seq<Piece>, end: bool) {
    ps != [] ==> (ps[0] == AnyMany ==> start) && (ps[|ps| - 1] == AnyMany ==> end)
  }

  lemma {:induction false} CoreTrimmed(start: bool, ps: seq<Piece>, end: bool)
    requires Plain(ps)
    ensures Plain(Core(start, ps, end)) && Trimmed(start, Core(start, ps, end), end)
  {
    WithoutHeadPlain(ps);
    WithoutTailPlain(if start then ps else WithoutHead(ps));
  }

  // ---- A string the conversion gets wrong, when there is one

  /** Every literal as it is, a newline for every wildcard. */
  function Broken(ps: seq<Piece>): string {
    seq(|ps|, k requires 0 <= k < |ps| => if ps[k].Char? then ps[k].c else '\n')
  }

  function Visible(s: string): nat {
    if s == [] then 0 else Visible(s[1..]) + if s[0] == '\n' then 0 else 1
  }

  /** How many characters an expression matches at least. */
  function Least(ps: seq<Piece>): nat {
    if ps == [] then 0 else Least(ps[1..]) + if ps[0] == AnyMany then 0 else 1
  }

  lemma {:induction false} VisibleConcat(a: string, b: string)
    ensures Visible(a + b) == Visible(a) + Visible(b)
    decreases a
  {
    if a == [] {
      assert a + b == b;
    } else {
      VisibleConcat(a[1..], b);
      assert (a + b)[1..] == a[1..] + b;
    }
  }

  lemma {:induction false} VisibleBounds(s: string)
    ensures Visible(s) <= |s|
    ensures OneLine(s) ==> Visible(s) == |s|
    ensures Visible(s) == 0 ==> forall i | 0 <= i < |s| :: s[i] == '\n'
  {
    if s != [] {
      VisibleBounds(s[1..]);
      assert Visible(s) == 0 ==> forall i | 1 <= i < |s| :: s[i] == s[1..][i - 1];
    }
  }

  lemma {:induction false} BrokenStep(ps: seq<Piece>)
    requires ps != []
    ensures Broken(ps)[1..] == Broken(ps[1..])
  {
  }

  lemma {:induction false} BrokenMatches(ps: seq<Piece>)
    ensures Matches(ps, Broken(ps), true)
    decreases ps
  {
    if ps != [] {
      BrokenMatches(ps[1..]);
      BrokenStep(ps);
      assert MatchesAt(ps, Broken(ps), 1, true);
    }
  }

  /** The literals are the visible characters; no more than the expression asks for. */
  lemma {:induction false} BrokenVisible(ps: seq<Piece>)
    requires Plain(ps)
    ensures Visible(Broken(ps)) <= Least(ps)
    ensures Visible(Broken(ps)) == Least(ps) ==> forall i | 0 <= i < |ps| :: ps[i].Char? || ps[i] == AnyMany
    decreases ps
  {
    if ps != [] {
      BrokenStep(ps);
      BrokenVisible(ps[1..]);
      assert ps[0].Char? ==> ps[0].c !in META;
      assert forall i | 1 <= i < |ps| :: ps[i] == ps[1..][i - 1];
    }
  }

  lemma {:induction false} MatchesWithinLine(ps: seq<Piece>, t: string)
    requires Plain(ps) && Matches(ps, t, false)
    ensures OneLine(t) && |t| >= Least(ps)
    decreases ps
  {
    if ps != [] {
      var k := MatchesPick(ps, t, false);
      MatchesWithinLine(ps[1..], t[k..]);
      assert ps[0].Char? ==> ps[0].c !in META;
      assert t == t[..k] + t[k..];
    }
  }

  lemma {:induction false} VisibleParts(s: string, i: nat, j: nat)
    requires i <= j <= |s|
    ensures Visible(s) == Visible(s[..i]) + Visible(s[i..j]) + Visible(s[j..])
  {
    assert s == s[..i] + (s[i..j] + s[j..]);
    VisibleConcat(s[..i], s[i..j] + s[j..]);
    VisibleConcat(s[i..j], s[j..]);
  }

  lemma {:induction false} NewlinesAround(s: string, i: nat, j: nat)
    requires i <= j <= |s| && Visible(s[i..j]) == Visible(s)
    ensures forall k | 0 <= k < |s| :: k < i || k >= j ==> s[k] == '\n'
  {
    VisibleParts(s, i, j);
    VisibleBounds(s[..i]);
    VisibleBounds(s[j..]);
    assert forall k | 0 <= k < i :: s[k] == s[..i][k];
    assert forall k | j <= k < |s| :: s[k] == s[j..][k - j];
  }

  lemma {:induction false} BrokenNotFound(start: bool, ps: seq<Piece>, end: bool)
    requires Plain(ps) && Trimmed(start, ps, end) && !AllChars(ps)
    ensures !Search(start, ps, end, Broken(ps))
  {
    var s := Broken(ps);
    if Search(start, ps, end, s) {
      var i, j :| 0 <= i <= j <= |s| && (start ==> i == 0) && (end ==> j == |s|) && Matches(ps, s[i..j], false);
      MatchesWithinLine(ps, s[i..j]);
      BrokenVisible(ps);
      VisibleBounds(s[i..j]);
      VisibleParts(s, i, j);
      NewlinesAround(s, i, j);
      BrokenStretch(start, ps, end, i, j);
    }
  }

  lemma {:induction false} BrokenEnds(start: bool, ps: seq<Piece>, end: bool)
    requires Plain(ps) && Trimmed(start, ps, end) && ps != []
    requires forall k | 0 <= k < |ps| :: ps[k].Char? || ps[k] == AnyMany
    ensures !start ==> Broken(ps)[0] != '\n'
    ensures !end ==> Broken(ps)[|ps| - 1] != '\n'
  {
    assert ps[0].Char? ==> ps[0].c !in META;
    assert ps[|ps| - 1].Char? ==> ps[|ps| - 1].c !in META;
  }

  /** A stretch with all the visible characters and no newline is everything. */
  lemma {:induction false} BrokenStretch(start: bool, ps: seq<Piece>, end: bool, i: nat, j: nat)
    requires Plain(ps) && Trimmed(start, ps, end) && i <= j <= |ps|
    requires (start ==> i == 0) && (end ==> j == |ps|) && OneLine(Broken(ps)[i..j])
    requires forall k | 0 <= k < |ps| :: ps[k].Char? || ps[k] == AnyMany
    requires forall k | 0 <= k < |ps| :: k < i || k >= j ==> Broken(ps)[k] == '\n'
    ensures AllChars(ps)
  {
    if ps != [] {
      var s := Broken(ps);
      BrokenEnds(start, ps, end);
      assert i == 0 && j == |ps|;
      assert s[i..j] == s;
      forall k | 0 <= k < |ps|
        ensures ps[k].Char?
      {
        assert s[k] in s && s[k] != '\n';
      }
    }
  }

  /** Right on every string of any number of lines exactly when what has to be found
      is literal; on strings of one line always. */
  lemma {:induction false} LikeIsSearch(start: bool, ps: seq<Piece>, end: bool, s: string, escape: Option<char>)
    requires Plain(ps) && (OneLine(s) || AllChars(Core(start, ps, end)))
    requires escape == Some('\\') || (escape == None && !HasWildcardLiteral(ps))
    ensures Like(LikeText(Regex(start, ps, end)), s, escape) <==> Search(start, ps, end, s)
  {
    var core := Core(start, ps, end);
    LikeFinds(start, ps, end, s, escape);
    FoundCore(start, ps, end, s, true);
    FoundCore(start, ps, end, s, false);
    forall i, j | 0 <= i <= j <= |s|
      ensures Matches(core, s[i..j], true) <==> Matches(core, s[i..j], false)
    {
      SameOnLines(core, s[i..j]);
    }
  }

  /** The pattern is LIKE exactly the strings in which the expression is found. */
  ghost predicate Faithful(pattern: string, start: bool, ps: seq<Piece>, end: bool, escape: Option<char>) {
    forall s :: Like(pattern, s, escape) <==> Search(start, ps, end, s)
  }

  lemma {:induction false} LikeExactly(start: bool, ps: seq<Piece>, end: bool, escape: Option<char>)
    requires Plain(ps)
    requires escape == Some('\\') || (escape == None && !HasWildcardLiteral(ps))
    ensures Faithful(LikeText(Regex(start, ps, end)), start, ps, end, escape) <==> AllChars(Core(start, ps, end))
  {
    hide Like, LikeText, Found;
    var pattern, core := LikeText(Regex(start, ps, end)), Core(start, ps, end);
    if AllChars(core) {
      forall s
        ensures Like(pattern, s, escape) <==> Search(start, ps, end, s)
      {
        LikeIsSearch(start, ps, end, s, escape);
      }
    } else {
      var s := Broken(core);
      CoreTrimmed(start, ps, end);
      BrokenNotFound(start, core, end);
      BrokenFound(start, core, end);
      FoundCore(start, ps, end, s, true);
      FoundCore(start, ps, end, s, false);
      LikeFinds(start, ps, end, s, escape);
      assert Like(pattern, s, escape) && !Search(start, ps, end, s);
    }
  }

  lemma {:induction false} BrokenFound(start: bool, ps: seq<Piece>, end: bool)
    ensures Found(start, ps, end, Broken(ps), true)
  {
    BrokenMatches(ps);
    assert Broken(ps)[0..|ps|] == Broken(ps);
  }

  // ---- Without an escape character

  /** A string that is found: the literals, and as few other characters as possible. */
  function Sample(ps: seq<Piece>): string {
    if ps == [] then []
    else (match ps[0] case Char(c) => [c] case AnyMany => "" case _ => "x") + Sample(ps[1..])
  }

  lemma {:induction false} SampleMatches(ps: seq<Piece>)
    requires Plain(ps)
    ensures Matches(ps, Sample(ps), false) && OneLine(Sample(ps))
    ensures '\\' !in Sample(ps) && '*' !in Sample(ps) && '+' !in Sample(ps)
    decreases ps
  {
    if ps != [] {
      SampleMatches(ps[1..]);
      var n := |Sample(ps)| - |Sample(ps[1..])|;
      assert ps[0].Char? ==> ps[0].c !in META;
      assert Sample(ps)[n..] == Sample(ps[1..]);
      assert MatchesAt(ps, Sample(ps), n, false);
    }
  }

  lemma {:induction false} SampleFound(start: bool, ps: seq<Piece>, end: bool)
    requires Plain(ps)
    ensures Search(start, ps, end, Sample(ps))
  {
    SampleMatches(ps);
    assert Sample(ps)[0..|Sample(ps)|] == Sample(ps);
  }

  /** A character of the pattern that is no wildcard occurs in every string like it. */
  lemma {:induction false} LikeNeeds(pat: string, s: string, escape: Option<char>, c: char)
    requires Like(pat, s, escape) && c in pat && c != '%' && c != '_'
    requires escape == None || escape.value !in pat
    ensures c in s
    decreases pat
  {
    if pat[0] == '%' {
      var k :| 0 <= k <= |s| && Like(pat[1..], s[k..], escape);
      LikeNeeds(pat[1..], s[k..], escape, c);
    } else if c in pat[1..] {
      LikeNeeds(pat[1..], s[1..], escape, c);
    }
  }

  lemma {:induction false} EscapesInText(ps: seq<Piece>)
    requires HasWildcardLiteral(ps)
    ensures '\\' in Text(5, ps)
    decreases ps
  {
    if ps[0] == Char('%') || ps[0] == Char('_') {
      assert Text(5, ps)[0] == '\\';
    } else {
      var i :| 0 <= i < |ps| && (ps[i] == Char('%') || ps[i] == Char('_'));
      assert ps[1..][i - 1] == ps[i];
      EscapesInText(ps[1..]);
    }
  }

  lemma {:induction false} EscapeUnfaithful(start: bool, ps: seq<Piece>, end: bool)
    requires Plain(ps) && HasWildcardLiteral(ps)
    ensures OneLine(Sample(ps)) && Search(start, ps, end, Sample(ps))
    ensures !Like(LikeText(Regex(start, ps, end)), Sample(ps), None)
  {
    var pattern := LikeText(Regex(start, ps, end));
    PassesAreOnePass(start, ps, end);
    EscapesInText(ps);
    SampleFound(start, ps, end);
    SampleMatches(ps);
    assert '\\' in pattern;
    if Like(pattern, Sample(ps), None) {
      LikeNeeds(pattern, Sample(ps), None, '\\');
    }
  }

  /** LIKE has no escape character unless one is declared, and the emitted text
      declares none: where the database adds none of its own, the conversion is
      right exactly for the expressions without literal `%` and `_` whose core is literal. */
  lemma {:induction false} LikeWithoutEscape(start: bool, ps: seq<Piece>, end: bool)
    requires Plain(ps)
    ensures Faithful(LikeText(Regex(start, ps, end)), start, ps, end, None)
            <==> !HasWildcardLiteral(ps) && AllChars(Core(start, ps, end))
  {
    hide Like, Search;
    if HasWildcardLiteral(ps) {
      EscapeUnfaithful(start, ps, end);
    } else {
      LikeExactly(start, ps, end, None);
    }
  }

  /** The same on strings of one line, where only the literals matter. */
  lemma {:induction false} LikeWithoutEscapeOnLines(start: bool, ps: seq<Piece>, end: bool)
    requires Plain(ps)
    ensures (forall s | OneLine(s) :: Like(LikeText(Regex(start, ps, end)), s, None) <==> Search(start, ps, end, s))
            <==> !HasWildcardLiteral(ps)
  {
    hide Like, Search;
    if HasWildcardLiteral(ps) {
      EscapeUnfaithful(start, ps, end);
    } else {
      forall s | OneLine(s) {
        LikeIsSearch(start, ps, end, s, None);
      }
    }
  }

  // ---- The query translator's conversion

  function NaiveShow(p: Piece): string {
    match p
    case Char(c) => [c]
    case AnyOne => "_"
    case AnyMany => "_*"
    case AnySome => "_+"
  }

  function NaiveText(ps: seq<Piece>): string {
    if ps == [] then [] else NaiveShow(ps[0]) + NaiveText(ps[1..])
  }

  predicate HasRepetition(ps: seq<Piece>) {
    exists i | 0 <= i < |ps| :: ps[i] == AnyMany || ps[i] == AnySome
  }

  lemma {:induction false} ReplaceKeeps(c: char, rest: string, from: string, to: string)
    requires from != [] && from[0] != c
    ensures ReplaceAll([c] + rest, from, to) == [c] + ReplaceAll(rest, from, to)
  {
    assert ([c] + rest)[1..] == rest;
  }

  lemma {:induction false} ReplaceDotPiece(p: Piece, rest: string)
    requires Plain([p])
    ensures ReplaceAll(Show(0, p) + rest, ".", "_") == NaiveShow(p) + ReplaceAll(rest, ".", "_")
  {
    match p {
      case Char(c) =>
        assert [p][0].c !in META;
        ReplaceKeeps(c, rest, ".", "_");
      case AnyOne =>
        ReplaceHits(rest, ".", "_");
      case AnyMany =>
        assert ".*" + rest == "." + ("*" + rest);
        ReplaceHits("*" + rest, ".", "_");
        ReplaceKeeps('*', rest, ".", "_");
      case AnySome =>
        assert ".+" + rest == "." + ("+" + rest);
        ReplaceHits("+" + rest, ".", "_");
        ReplaceKeeps('+', rest, ".", "_");
    }
  }

  lemma {:induction false} ReplaceDot(ps: seq<Piece>, tail: string)
    requires Plain(ps)
    ensures ReplaceAll(Text(0, ps) + tail, ".", "_") == NaiveText(ps) + ReplaceAll(tail, ".", "_")
    decreases ps
  {
    if ps == [] {
      assert Text(0, ps) + tail == tail;
    } else {
      ConcatAssociates(Show(0, ps[0]), Text(0, ps[1..]), tail);
      ReplaceDotPiece(ps[0], Text(0, ps[1..]) + tail);
      ReplaceDot(ps[1..], tail);
      ConcatAssociates(NaiveShow(ps[0]), NaiveText(ps[1..]), ReplaceAll(tail, ".", "_"));
    }
  }

  lemma {:induction false} ReplaceNothing(s: string, from: string, to: string)
    requires from != [] && from[0] !in s
    ensures ReplaceAll(s, from, to) == s
    decreases s
  {
    if s != [] {
      assert from[0] != s[0];
      ReplaceNothing(s[1..], from, to);
    }
  }

  lemma {:induction false} NaiveTextCharacters(ps: seq<Piece>)
    requires Plain(ps)
    ensures var t := NaiveText(ps); Unanchored(t) && '.' !in t && '\\' !in t
    ensures !HasRepetition(ps) && !HasWildcardLiteral(ps) ==> NaiveText(ps) == Text(5, ps)
    ensures HasRepetition(ps) ==> '*' in NaiveText(ps) || '+' in NaiveText(ps)
    decreases ps
  {
    if ps != [] {
      assert ps[0].Char? ==> ps[0].c !in META;
      assert ps[1..] != [] ==> forall i | 1 <= i < |ps| :: ps[1..][i - 1] == ps[i];
      NaiveTextCharacters(ps[1..]);
      assert HasRepetition(ps[1..]) ==> HasRepetition(ps);
      assert HasWildcardLiteral(ps[1..]) ==> HasWildcardLiteral(ps);
      assert ps[0] == AnyMany || ps[0] == AnySome ==> NaiveText(ps)[1] == '*' || NaiveText(ps)[1] == '+';
    }
  }

  lemma {:induction false} ReplaceDotInRegex(start: bool, ps: seq<Piece>, end: bool)
    requires Plain(ps)
    ensures ReplaceAll(Regex(start, ps, end), ".", "_") == Caret(start) + NaiveText(ps) + Dollar(end)
  {
    var rest := Text(0, ps) + Dollar(end);
    ReplaceDot(ps, Dollar(end));
    ReplaceNothing(Dollar(end), ".", "_");
    ReplaceSkips(Caret(start), rest, ".", "_");
    ConcatAssociates(Caret(start), Text(0, ps), Dollar(end));
    ConcatAssociates(Caret(start), NaiveText(ps), Dollar(end));
  }

  lemma {:induction false} TailBecomesWildcard(head: string, end: bool)
    requires Unanchored(head)
    ensures var q := head + Dollar(end);
      (if HasSuffix(q, "$") then q[..|q| - 1] else q + "%") == head + (if end then "" else "%")
  {
    var q := head + Dollar(end);
    AnchorTests(false, head, end);
    assert q == Caret(false) + head + Dollar(end);
    assert q[..|head|] == head;
  }

  lemma {:induction false} AnchorsBecomeWildcards(start: bool, t: string, end: bool)
    requires Unanchored(t)
    ensures AnchorsToWildcards(Caret(start) + t + Dollar(end)) ==
            (if start then "" else "%") + t + (if end then "" else "%")
  {
    AnchorTests(start, t, end);
    WithoutCaret(start, t, end);
    var p := Caret(start) + t + Dollar(end);
    if start {
      TailBecomesWildcard(t, end);
      assert "" + t == t;
    } else {
      assert "%" + p == ("%" + t) + Dollar(end);
      TailBecomesWildcard("%" + t, end);
    }
  }

  lemma {:induction false} DotPassesOnRegex(start: bool, ps: seq<Piece>, end: bool)
    requires Plain(ps)
    ensures DotPasses(Regex(start, ps, end)) == Caret(start) + NaiveText(ps) + Dollar(end)
  {
    NaiveTextCharacters(ps);
    ReplaceDotInRegex(start, ps, end);
    ReplaceNothing(Caret(start) + NaiveText(ps) + Dollar(end), ".*", "%");
    ReplaceNothing(Caret(start) + NaiveText(ps) + Dollar(end), ".+", "_%");
  }

  lemma {:induction false} TranslatorOnePass(start: bool, ps: seq<Piece>, end: bool)
    requires Plain(ps)
    ensures TranslatorLikeText(Regex(start, ps, end)) ==
            (if start then "" else "%") + NaiveText(ps) + (if end then "" else "%")
  {
    NaiveTextCharacters(ps);
    DotPassesOnRegex(start, ps, end);
    AnchorsBecomeWildcards(start, NaiveText(ps), end);
  }

  /** The literals, with another character for each `%` and `_` and for each dot. */
  function Blur(ps: seq<Piece>): string {
    if ps == [] then []
    else (if ps[0].Char? && ps[0].c != '%' && ps[0].c != '_' then [ps[0].c] else "x") + Blur(ps[1..])
  }

  lemma {:induction false} LikeCharacter(c: char, x: char, pat: string, s: string, escape: Option<char>)
    requires (c == '%' || c == '_' || c == x) && escape != Some(c) && Like(pat, s, escape)
    ensures Like([c] + pat, [x] + s, escape)
  {
    assert ([c] + pat)[1..] == pat && ([x] + s)[1..] == s;
  }

  lemma {:induction false} BlurHasNoWildcard(ps: seq<Piece>)
    requires Plain(ps)
    ensures OneLine(Blur(ps)) && '%' !in Blur(ps) && '_' !in Blur(ps)
  {
    if ps != [] {
      assert ps[0].Char? ==> ps[0].c !in META;
      BlurHasNoWildcard(ps[1..]);
    }
  }

  lemma {:induction false} BlurIsLike(ps: seq<Piece>, tail: string, escape: Option<char>)
    requires Plain(ps) && !HasRepetition(ps) && Like(tail, "", escape)
    requires escape == None || escape == Some('\\')
    ensures Like(NaiveText(ps) + tail, Blur(ps), escape)
    decreases ps
  {
    if ps == [] {
      assert NaiveText(ps) + tail == tail;
    } else {
      assert ps[0].Char? ==> ps[0].c !in META;
      assert HasRepetition(ps[1..]) ==> HasRepetition(ps);
      BlurIsLike(ps[1..], tail, escape);
      var c := if ps[0].Char? then ps[0].c else '_';
      LikeCharacter(c, Blur(ps)[0], NaiveText(ps[1..]) + tail, Blur(ps[1..]), escape);
      assert NaiveShow(ps[0]) == [c] by { assert ps[0] != AnyMany && ps[0] != AnySome; }
      ConcatAssociates([c], NaiveText(ps[1..]), tail);
    }
  }

  lemma {:induction false} MatchesNeeds(ps: seq<Piece>, s: string, c: char)
    requires Matches(ps, s, false) && Char(c) in ps
    ensures c in s
    decreases ps
  {
    var k := MatchesPick(ps, s, false);
    if ps[0] == Char(c) {
      assert s[..k][0] == c;
    } else {
      MatchesNeeds(ps[1..], s[k..], c);
    }
  }

  lemma {:induction false} BlurNotFound(start: bool, ps: seq<Piece>, end: bool, s: string)
    requires HasWildcardLiteral(ps) && '%' !in s && '_' !in s
    ensures !Search(start, ps, end, s)
  {
    var i :| 0 <= i < |ps| && (ps[i] == Char('%') || ps[i] == Char('_'));
    if Search(start, ps, end, s) {
      var a, b :| 0 <= a <= b <= |s| && Matches(ps, s[a..b], false);
      MatchesNeeds(ps, s[a..b], ps[i].c);
    }
  }

  /** The same for the strings of one line. */
  ghost predicate FaithfulOnLines(pattern: string, start: bool, ps: seq<Piece>, end: bool, escape: Option<char>) {
    forall s | OneLine(s) :: Like(pattern, s, escape) <==> Search(start, ps, end, s)
  }

  lemma {:induction false} LikeAfterPercent(pat: string, s: string, escape: Option<char>)
    requires Like(pat, s, escape) && escape != Some('%')
    ensures Like("%" + pat, s, escape)
  {
    assert ("%" + pat)[1..] == pat && s[0..] == s;
  }

  lemma {:induction false} RepetitionIsUnfaithful(start: bool, ps: seq<Piece>, end: bool, escape: Option<char>)
    requires Plain(ps) && HasRepetition(ps)
    requires escape == None || escape == Some('\\')
    ensures !FaithfulOnLines(TranslatorLikeText(Regex(start, ps, end)), start, ps, end, escape)
  {
    var pattern := TranslatorLikeText(Regex(start, ps, end));
    TranslatorOnePass(start, ps, end);
    NaiveTextCharacters(ps);
    var c := if '*' in NaiveText(ps) then '*' else '+';
    SampleMatches(ps);
    SampleFound(start, ps, end);
    if Like(pattern, Sample(ps), escape) {
      LikeNeeds(pattern, Sample(ps), escape, c);
    }
  }

  lemma {:induction false} LikeTail(end: bool, escape: Option<char>)
    requires escape == None || escape == Some('\\')
    ensures Like(if end then "" else "%", "", escape)
  {
    assert "%"[1..] == "" && ""[0..] == "";
  }

  lemma {:induction false} BlurIsLikePattern(start: bool, ps: seq<Piece>, end: bool, escape: Option<char>)
    requires Plain(ps) && !HasRepetition(ps)
    requires escape == None || escape == Some('\\')
    ensures Like((if start then "" else "%") + NaiveText(ps) + (if end then "" else "%"), Blur(ps), escape)
  {
    hide Like, NaiveText, Blur, Plain, HasRepetition;
    var tail := if end then "" else "%";
    LikeTail(end, escape);
    BlurIsLike(ps, tail, escape);
    if start {
      assert "" + NaiveText(ps) + tail == NaiveText(ps) + tail;
    } else {
      LikeAfterPercent(NaiveText(ps) + tail, Blur(ps), escape);
      ConcatAssociates("%", NaiveText(ps), tail);
    }
  }

  lemma {:induction false} WildcardIsUnfaithful(start: bool, ps: seq<Piece>, end: bool, escape: Option<char>)
    requires Plain(ps) && !HasRepetition(ps) && HasWildcardLiteral(ps)
    requires escape == None || escape == Some('\\')
    ensures !FaithfulOnLines(TranslatorLikeText(Regex(start, ps, end)), start, ps, end, escape)
  {
    TranslatorOnePass(start, ps, end);
    BlurIsLikePattern(start, ps, end, escape);
    BlurHasNoWildcard(ps);
    BlurNotFound(start, ps, end, Blur(ps));
  }

  /** On strings of one line the translator's conversion is right exactly for the
      expressions without repetition and without literal `%` and `_`, whatever the
      escape character. */
  lemma {:induction false} TranslatorLikeOnLines(start: bool, ps: seq<Piece>, end: bool, escape: Option<char>)
    requires Plain(ps) && (escape == None || escape == Some('\\'))
    ensures FaithfulOnLines(TranslatorLikeText(Regex(start, ps, end)), start, ps, end, escape)
            <==> !HasRepetition(ps) && !HasWildcardLiteral(ps)
  {
    if HasRepetition(ps) {
      RepetitionIsUnfaithful(start, ps, end, escape);
    } else if HasWildcardLiteral(ps) {
      WildcardIsUnfaithful(start, ps, end, escape);
    } else {
      SameConversion(start, ps, end);
      forall s | OneLine(s) {
        LikeIsSearch(start, ps, end, s, escape);
      }
    }
  }

  lemma {:induction false} SameConversion(start: bool, ps: seq<Piece>, end: bool)
    requires Plain(ps) && !HasRepetition(ps) && !HasWildcardLiteral(ps)
    ensures TranslatorLikeText(Regex(start, ps, end)) == LikeText(Regex(start, ps, end))
  {
    TranslatorOnePass(start, ps, end);
    NaiveTextCharacters(ps);
    PassesAreOnePass(start, ps, end);
  }

  lemma {:induction false} CoreOfOnes(start: bool, ps: seq<Piece>, end: bool)
    ensures !HasRepetition(ps) ==> Core(start, ps, end) == ps
    ensures AllChars(ps) ==> !HasRepetition(ps)
  {
    assert ps != [] && ps[0] == AnyMany ==> HasRepetition(ps);
    assert ps != [] && ps[|ps| - 1] == AnyMany ==> HasRepetition(ps);
  }

  /** On all strings it is right exactly for literal text without `%` and `_`. */
  lemma {:induction false} TranslatorLikeExact(start: bool, ps: seq<Piece>, end: bool, escape: Option<char>)
    requires Plain(ps) && (escape == None || escape == Some('\\'))
    ensures Faithful(TranslatorLikeText(Regex(start, ps, end)), start, ps, end, escape)
            <==> AllChars(ps) && !HasWildcardLiteral(ps)
  {
    hide Like, Search;
    CoreOfOnes(start, ps, end);
    TranslatorLikeOnLines(start, ps, end, escape);
    if !HasRepetition(ps) && !HasWildcardLiteral(ps) {
      SameConversion(start, ps, end);
      LikeExactly(start, ps, end, escape);
    }
  }

  // ---- One text, one expression

  lemma {:induction false} FirstPieceDetermined(p: Piece, a: string, q: Piece, b: string)
    requires Plain([p]) && Plain([q]) && StartsPiece(a) && StartsPiece(b)
    requires Show(0, p) + a == Show(0, q) + b
    ensures p == q && a == b
  {
    var t := Show(0, p) + a;
    assert p.Char? ==> [p][0].c !in META;
    assert q.Char? ==> [q][0].c !in META;
    assert t[0] == Show(0, p)[0] == Show(0, q)[0];
    assert |t| > 1 ==> t[1] == if |Show(0, p)| > 1 then Show(0, p)[1] else a[0];
    assert |t| > 1 ==> t[1] == if |Show(0, q)| > 1 then Show(0, q)[1] else b[0];
    assert p == q;
    assert t[|Show(0, p)|..] == a;
  }

  lemma {:induction false} TextLength(ps: seq<Piece>)
    ensures |Text(0, ps)| >= |ps|
  {
    if ps != [] {
      TextLength(ps[1..]);
    }
  }

  lemma {:induction false} TextDetermines(ps: seq<Piece>, qs: seq<Piece>)
    requires Plain(ps) && Plain(qs) && Text(0, ps) == Text(0, qs)
    ensures ps == qs
    decreases ps
  {
    TextLength(ps);
    TextLength(qs);
    if ps != [] && qs != [] {
      var p, q := ps[0], qs[0];
      TextStartsPiece(0, ps[1..]);
      TextStartsPiece(0, qs[1..]);
      assert Plain([p]) && Plain([q]);
      FirstPieceDetermined(p, Text(0, ps[1..]), q, Text(0, qs[1..]));
      TextDetermines(ps[1..], qs[1..]);
      assert ps == [p] + ps[1..] && qs == [q] + qs[1..];
    }
  }

  /** The text of an expression determines it, so a regex operator is a relation on texts. */
  lemma {:induction false} RegexDetermines(s1: bool, ps: seq<Piece>, e1: bool, s2: bool, qs: seq<Piece>, e2: bool)
    requires Plain(ps) && Plain(qs) && Regex(s1, ps, e1) == Regex(s2, qs, e2)
    ensures s1 == s2 && ps == qs && e1 == e2
  {
    TextHasNoAnchor(ps);
    TextHasNoAnchor(qs);
    AnchorTests(s1, Text(0, ps), e1);
    AnchorTests(s2, Text(0, qs), e2);
    AnchorsTrimmed(s1, Text(0, ps), e1);
    AnchorsTrimmed(s2, Text(0, qs), e2);
    TextDetermines(ps, qs);
  }

  /** A string the conversion of this expression is right about: of one line, or of
      any number of lines when what has to be found is literal. */
  ghost predicate LineSafe(pattern: string, s: string) {
    OneLine(s) ||
    exists start, ps, end :: Plain(ps) && pattern == Regex(start, ps, end) && AllChars(Core(start, ps, end))
  }

  lemma {:induction false} LineSafePieces(start: bool, ps: seq<Piece>, end: bool, s: string)
    requires Plain(ps) && LineSafe(Regex(start, ps, end), s)
    ensures OneLine(s) || AllChars(Core(start, ps, end))
  {
    hide Regex, Core;
    if !OneLine(s) {
      var a, qs, b :| Plain(qs) && Regex(start, ps, end) == Regex(a, qs, b) && AllChars(Core(a, qs, b));
      RegexDetermines(start, ps, end, a, qs, b);
    }
  }

  /** Searching as a relation on texts, for the expressions the conversion is for. */
  ghost function Searches(): iset<(string, string)> {
    iset pair: (string, string) |
      exists start, ps, end :: Plain(ps) && pair.0 == Regex(start, ps, end) && Search(start, ps, end, pair.1)
  }

  lemma {:induction false} SearchesExactly(start: bool, ps: seq<Piece>, end: bool, s: string)
    requires Plain(ps)
    ensures (Regex(start, ps, end), s) in Searches() <==> Search(start, ps, end, s)
  {
    hide Regex, Search;
    var pattern := Regex(start, ps, end);
    if (pattern, s) in Searches() {
      var a, qs, b :| Plain(qs) && pattern == Regex(a, qs, b) && Search(a, qs, b, s);
      RegexDetermines(start, ps, end, a, qs, b);
    }
  }
}
