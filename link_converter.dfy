/** URL detection in free text (src/utils/linkConverter.tsx): the text is
    cut, left to right, into plain pieces and link pieces. A link is what
    the pattern `(https?://[^\s<>")]+)|(www\.[^\s<>")]+)` with flags `gi`
    matches: case-insensitively `http://`, `https://` or `www.`, then the
    longest non-empty run of characters that are neither white space nor
    one of `<`, `>`, `"`, `)`. The pattern is written out here as a scanner
    over characters. */
module LinkConverter {
  import opened Types

  /** A piece of the result: plain text, or a link whose shown text is
      `display` and whose target is `href`. */
  datatype Piece = Text(s: string) | Link(display: string, href: string)

  /** The characters that end a link. */
  predicate IsStop(c: char)
  {
    IsJsSpace(c) || c == '<' || c == '>' || c == '"' || c == ')'
  }

  /** ASCII lower case; the `i` flag (without `u`) folds only ASCII letters
      onto the letters of the pattern. */
  function Lower(c: char): char
  {
    if 'A' <= c <= 'Z' then (c as int + 32) as char else c
  }

  /** `s[i..]` starts with the lower-case literal `lit`, ignoring case. */
  predicate MatchesAt(s: string, i: nat, lit: string)
  {
    i + |lit| <= |s| && forall k :: 0 <= k < |lit| ==> Lower(s[i + k]) == lit[k]
  }

  /** The length of the scheme the pattern accepts at `i`: `https://`,
      `http://` or `www.`; 0 for none. */
  function SchemeLength(s: string, i: nat): (n: nat)
    ensures n == 0 || n == 4 || n == 7 || n == 8
    ensures n > 0 ==> i + n <= |s|
  {
    if MatchesAt(s, i, "https://") then 8
    else if MatchesAt(s, i, "http://") then 7
    else if MatchesAt(s, i, "www.") then 4
    else 0
  }

  /** The first stop character at or after `j`, or the end of `s`. */
  function RunEnd(s: string, j: nat): (r: nat)
    requires j <= |s|
    ensures j <= r <= |s|
    ensures forall k :: j <= k < r ==> !IsStop(s[k])
    ensures r == |s| || IsStop(s[r])
    decreases |s| - j
  {
    if j == |s| || IsStop(s[j]) then j else RunEnd(s, j + 1)
  }

  /** The end of the match that starts at `i`, if one does: a scheme, then
      at least one character that is not a stop character, as many as
      there are. */
  function MatchAt(s: string, i: nat): (r: Option<nat>)
    requires i < |s|
    ensures r.Some? ==> SchemeLength(s, i) > 0 && i + SchemeLength(s, i) < r.value <= |s|
    ensures r.Some? ==> r.value == RunEnd(s, i + SchemeLength(s, i))
    ensures r.None? ==> SchemeLength(s, i) == 0 || i + SchemeLength(s, i) == |s| || IsStop(s[i + SchemeLength(s, i)])
  {
    var n := SchemeLength(s, i);
    if n > 0 && i + n < |s| && !IsStop(s[i + n]) then Some(RunEnd(s, i + n)) else None
  }

  /** `url.startsWith('www') ? 'https://' + url : url` (case-sensitive). */
  function Href(url: string): (h: string)
    ensures |url| >= 3 && url[..3] == "www" ==> h == "https://" + url
    ensures !(|url| >= 3 && url[..3] == "www") ==> h == url
  {
    if |url| >= 3 && url[..3] == "www" then "https://" + url else url
  }

  predicate NoMatchIn(s: string, from: nat, to: nat)
    requires from <= to <= |s|
  {
    forall k :: from <= k < to ==> MatchAt(s, k).None?
  }

  /** The pieces the loop produces from position `i` on, when the text not
      yet emitted starts at `last`: the leftmost match at or after `i` is
      emitted after the pending text, and scanning resumes at its end. */
  function Scan(s: string, last: nat, i: nat): seq<Piece>
    requires last <= i <= |s|
    decreases |s| - i
  {
    if i == |s| then
      if last < |s| then [Text(s[last..])] else []
    else
      match MatchAt(s, i)
      case None => Scan(s, last, i + 1)
      case Some(e) => Pending(s, last, i, [Link(s[i..e], Href(s[i..e]))] + Scan(s, e, e))
  }

  /** The text not yet emitted, `s[last..i]`, as a piece in front of
      `tail` when it is not empty. */
  function Pending(s: string, last: nat, i: nat, tail: seq<Piece>): seq<Piece>
    requires last <= i <= |s|
  {
    if last < i then [Text(s[last..i])] + tail else tail
  }

  /** `convertLinksToElements`: the pieces; the input itself as one piece
      when there are none (that is, for the empty input). */
  function Convert(s: string): seq<Piece>
  {
    var r := Scan(s, 0, 0);
    if r == [] then [Text(s)] else r
  }

  function PieceText(p: Piece): string
  {
    match p
    case Text(t) => t
    case Link(d, _) => d
  }

  /** The shown texts of the pieces, concatenated. */
  function Flatten(ps: seq<Piece>): string
  {
    if ps == [] then "" else PieceText(ps[0]) + Flatten(ps[1..])
  }

  /** Skipping positions where nothing matches does not change the pieces. */
  lemma {:induction false} ScanSkip(s: string, last: nat, i: nat, j: nat)
    requires last <= i <= j <= |s| && NoMatchIn(s, i, j)
    ensures Scan(s, last, i) == Scan(s, last, j)
    decreases j - i
  {
    if i < j {
      assert MatchAt(s, i).None?;
      ScanNone(s, last, i);
      ScanSkip(s, last, i + 1, j);
    }
  }

  lemma ScanNone(s: string, last: nat, i: nat)
    requires last <= i < |s| && MatchAt(s, i).None?
    ensures Scan(s, last, i) == Scan(s, last, i + 1)
  {
  }

  lemma FlattenOne(p: Piece)
    ensures Flatten([p]) == PieceText(p)
  {
    assert [p][1..] == [];
  }

  /** The pieces spell out the rest of the text: nothing is lost, added or
      reordered. */
  lemma {:induction false} ScanFlatten(s: string, last: nat, i: nat)
    requires last <= i <= |s|
    ensures Flatten(Scan(s, last, i)) == s[last..]
    decreases |s| - i
  {
    if i == |s| {
      if last < |s| {
        FlattenOne(Text(s[last..]));
      }
    } else if MatchAt(s, i).None? {
      ScanFlatten(s, last, i + 1);
    } else {
      var e := MatchAt(s, i).value;
      ScanFlatten(s, e, e);
      LinkStepFlatten(s, last, i, e, Scan(s, e, e));
    }
  }

  lemma FlattenCons(p: Piece, rest: seq<Piece>)
    ensures Flatten([p] + rest) == PieceText(p) + Flatten(rest)
  {
    assert ([p] + rest)[1..] == rest;
  }

  lemma LinkStepFlatten(s: string, last: nat, i: nat, e: nat, rest: seq<Piece>)
    requires last <= i < e <= |s|
    requires Flatten(rest) == s[e..]
    ensures Flatten(Pending(s, last, i, [Link(s[i..e], Href(s[i..e]))] + rest)) == s[last..]
  {
    var d := s[i..e];
    var link := Link(d, Href(d));
    FlattenCons(link, rest);
    assert Flatten([link] + rest) == d + s[e..];
    if last < i {
      FlattenCons(Text(s[last..i]), [link] + rest);
      assert s[last..] == s[last..i] + (d + s[e..]);
    } else {
      assert s[last..] == d + s[e..];
    }
  }

  /** Concatenating the pieces of `convertLinksToElements` reproduces its
      input exactly. */
  lemma ConvertRoundTrip(s: string)
    ensures Flatten(Convert(s)) == s
  {
    ScanFlatten(s, 0, 0);
    if Scan(s, 0, 0) == [] {
      assert Flatten([Text(s)]) == s + Flatten([]);
    }
  }

  // ---------------------------------------------------------------------
  // The shape of the pieces

  /** What a link's shown text looks like: a scheme, at least one more
      character, and no stop character anywhere. */
  predicate LinkShaped(d: string)
  {
    0 < SchemeLength(d, 0) < |d| && forall k :: 0 <= k < |d| ==> !IsStop(d[k])
  }

  /** The pieces alternate: a text piece is never empty and is followed by
      a link; a link is followed by a text piece that starts with a stop
      character (so the link took the longest run it could); and every link
      carries its shape and its target. */
  predicate WellFormed(ps: seq<Piece>)
  {
    forall k :: 0 <= k < |ps| ==> GoodAt(ps, k)
  }

  predicate GoodAt(ps: seq<Piece>, k: nat)
    requires k < |ps|
  {
    && (ps[k].Text? ==> ps[k].s != "" && (k + 1 < |ps| ==> ps[k + 1].Link?))
    && (ps[k].Link? ==>
          && LinkShaped(ps[k].display) && ps[k].href == Href(ps[k].display)
          && (k + 1 < |ps| ==> ps[k + 1].Text? && ps[k + 1].s != "" && IsStop(ps[k + 1].s[0])))
  }

  lemma StopIsNotLetter(c: char)
    ensures IsStop(c) ==> Lower(c) == c
    ensures IsStop(c) ==> c != 'h' && c != 't' && c != 'p' && c != 's' && c != ':' && c != '/' && c != 'w' && c != '.'
  {
  }

  lemma MatchesAtIndex(s: string, i: nat, lit: string, k: nat)
    requires MatchesAt(s, i, lit) && k < |lit|
    ensures Lower(s[i + k]) == lit[k]
  {
  }

  /** A stop character cannot begin a match. */
  lemma NoMatchAtStop(s: string, i: nat)
    requires i < |s| && IsStop(s[i])
    ensures MatchAt(s, i).None?
  {
    StopIsNotLetter(s[i]);
    if MatchesAt(s, i, "https://") {
      MatchesAtIndex(s, i, "https://", 0);
    }
    if MatchesAt(s, i, "http://") {
      MatchesAtIndex(s, i, "http://", 0);
    }
    if MatchesAt(s, i, "www.") {
      MatchesAtIndex(s, i, "www.", 0);
    }
  }

  lemma MatchesAtSlice(s: string, i: nat, e: nat, lit: string)
    requires i + |lit| <= e <= |s|
    ensures MatchesAt(s[i..e], 0, lit) == MatchesAt(s, i, lit)
  {
    forall k | 0 <= k < |lit|
      ensures s[i..e][k] == s[i + k]
    {
    }
  }

  /** The characters a scheme matched are not stop characters. */
  lemma SchemeNotStop(s: string, i: nat, lit: string, k: nat)
    requires lit == "https://" || lit == "http://" || lit == "www."
    requires MatchesAt(s, i, lit) && k < |lit|
    ensures !IsStop(s[i + k])
  {
    assert forall j :: 0 <= j < 8 ==> !IsStop("https://"[j]);
    assert forall j :: 0 <= j < 4 ==> !IsStop("www."[j]);
    MatchesAtIndex(s, i, lit, k);
    StopIsNotLetter(s[i + k]);
  }

  /** The text of a match has the link shape. */
  lemma MatchShaped(s: string, i: nat)
    requires i < |s| && MatchAt(s, i).Some?
    ensures LinkShaped(s[i..MatchAt(s, i).value])
  {
    var e := MatchAt(s, i).value;
    var d := s[i..e];
    var n := SchemeLength(s, i);
    if n == 8 {
      MatchesAtSlice(s, i, e, "https://");
    } else if n == 7 {
      MatchesAtSlice(s, i, e, "http://");
      if i + 8 <= e {
        MatchesAtSlice(s, i, e, "https://");
      }
    } else {
      MatchesAtSlice(s, i, e, "www.");
      if i + 8 <= e {
        MatchesAtSlice(s, i, e, "https://");
      }
      if i + 7 <= e {
        MatchesAtSlice(s, i, e, "http://");
      }
    }
    assert SchemeLength(d, 0) == n;
    var lit := if n == 8 then "https://" else if n == 7 then "http://" else "www.";
    forall k | 0 <= k < |d|
      ensures !IsStop(d[k])
    {
      if k < n {
        SchemeNotStop(s, i, lit, k);
      }
    }
  }

  lemma WellFormedPrepend(p: Piece, rest: seq<Piece>)
    requires WellFormed(rest)
    requires p.Text? ==> p.s != "" && (rest != [] ==> rest[0].Link?)
    requires p.Link? ==> LinkShaped(p.display) && p.href == Href(p.display) &&
                         (rest != [] ==> rest[0].Text? && rest[0].s != "" && IsStop(rest[0].s[0]))
    ensures WellFormed([p] + rest)
  {
    var r := [p] + rest;
    forall k | 0 <= k < |r|
      ensures GoodAt(r, k)
    {
      if k > 0 {
        assert GoodAt(rest, k - 1);
        assert r[k] == rest[k - 1];
        if k + 1 < |r| {
          assert r[k + 1] == rest[k];
        }
      }
    }
  }

  /** Once a position has been skipped, the pieces begin with the pending
      text. */
  lemma {:induction false} ScanHead(s: string, last: nat, i: nat)
    requires last < i <= |s|
    ensures Scan(s, last, i) != [] && Scan(s, last, i)[0].Text?
    ensures Scan(s, last, i)[0].s != "" && Scan(s, last, i)[0].s[0] == s[last]
    decreases |s| - i
  {
    if i == |s| {
      assert Scan(s, last, i) == [Text(s[last..])];
    } else if MatchAt(s, i).None? {
      ScanNone(s, last, i);
      ScanHead(s, last, i + 1);
    } else {
      var e := MatchAt(s, i).value;
      ScanSome(s, last, i, e);
      assert Scan(s, last, i)[0] == Text(s[last..i]);
    }
  }

  lemma ScanSome(s: string, last: nat, i: nat, e: nat)
    requires last <= i < |s| && MatchAt(s, i) == Some(e)
    ensures Scan(s, last, i) == Pending(s, last, i, [Link(s[i..e], Href(s[i..e]))] + Scan(s, e, e))
  {
  }

  /** The pieces that follow a match start with the stop character that
      ended it, if anything follows. */
  lemma AfterMatch(s: string, e: nat)
    requires e <= |s| && (e == |s| || IsStop(s[e]))
    ensures Scan(s, e, e) != [] ==>
              Scan(s, e, e)[0].Text? && Scan(s, e, e)[0].s != "" && IsStop(Scan(s, e, e)[0].s[0])
  {
    if e < |s| {
      NoMatchAtStop(s, e);
      assert Scan(s, e, e) == Scan(s, e, e + 1);
      ScanHead(s, e, e + 1);
    }
  }

  /** A link of the right shape, preceded by the pending text and followed
      by well-formed pieces that start with a stop character. */
  lemma WellFormedLinkStep(s: string, last: nat, i: nat, e: nat, rest: seq<Piece>)
    requires last <= i < e <= |s| && LinkShaped(s[i..e]) && WellFormed(rest)
    requires rest != [] ==> rest[0].Text? && rest[0].s != "" && IsStop(rest[0].s[0])
    ensures WellFormed(Pending(s, last, i, [Link(s[i..e], Href(s[i..e]))] + rest))
  {
    var tail := [Link(s[i..e], Href(s[i..e]))] + rest;
    WellFormedPrepend(Link(s[i..e], Href(s[i..e])), rest);
    if last < i {
      WellFormedPrepend(Text(s[last..i]), tail);
    }
  }

  lemma {:induction false} ScanWellFormed(s: string, last: nat, i: nat)
    requires last <= i <= |s|
    ensures WellFormed(Scan(s, last, i))
    decreases |s| - i
  {
    if i < |s| {
      if MatchAt(s, i).None? {
        ScanWellFormed(s, last, i + 1);
      } else {
        var e := MatchAt(s, i).value;
        ScanWellFormed(s, e, e);
        AfterMatch(s, e);
        MatchShaped(s, i);
        WellFormedLinkStep(s, last, i, e, Scan(s, e, e));
      }
    }
  }

  /** The result of `convertLinksToElements` is well formed; only the empty
      input gives an empty text piece, as its single piece. */
  lemma ConvertWellFormed(s: string)
    ensures s != "" ==> WellFormed(Convert(s)) && Convert(s) == Scan(s, 0, 0)
    ensures s == "" ==> Convert(s) == [Text("")]
  {
    ScanWellFormed(s, 0, 0);
    ScanFlatten(s, 0, 0);
  }

  /** The match that starts at each position of `s`. */
  predicate MatchTable(s: string, m: seq<Option<nat>>)
  {
    |m| == |s| && forall k :: 0 <= k < |s| ==> m[k] == MatchAt(s, k)
  }

  function Matches(s: string): (m: seq<Option<nat>>)
    ensures MatchTable(s, m)
  {
    seq(|s|, k requires 0 <= k < |s| => MatchAt(s, k))
  }

  /** One piece read at `pos`, given the match table `m` of `s`: it spells
      the next stretch of `s`; a text piece is a stretch in which no match
      starts, and a link piece is the match that starts at `pos`. */
  predicate PieceAt(s: string, m: seq<Option<nat>>, pos: nat, p: Piece)
    requires |m| == |s|
  {
    var n := |PieceText(p)|;
    && pos + n <= |s| && s[pos..pos + n] == PieceText(p)
    && (p.Text? ==> forall k :: pos <= k < pos + n ==> m[k].None?)
    && (p.Link? ==> pos < |s| && m[pos] == Some(pos + n))
  }

  /** The pieces read `s` from `pos` to its end, piece after piece. */
  predicate Faithful(s: string, m: seq<Option<nat>>, pos: nat, ps: seq<Piece>)
    requires |m| == |s| && pos <= |s|
    decreases |ps|
  {
    if ps == [] then pos == |s|
    else
      && PieceAt(s, m, pos, ps[0])
      && Faithful(s, m, pos + |PieceText(ps[0])|, ps[1..])
  }

  lemma FaithfulCons(s: string, m: seq<Option<nat>>, pos: nat, p: Piece, rest: seq<Piece>)
    requires |m| == |s| && PieceAt(s, m, pos, p) && Faithful(s, m, pos + |PieceText(p)|, rest)
    ensures Faithful(s, m, pos, [p] + rest)
  {
    var ps := [p] + rest;
    assert ps[0] == p && ps[1..] == rest;
  }

  lemma LinkPieceAt(s: string, m: seq<Option<nat>>, i: nat, e: nat)
    requires |m| == |s| && i < e <= |s| && m[i] == Some(e)
    ensures PieceAt(s, m, i, Link(s[i..e], Href(s[i..e]))) && i + |s[i..e]| == e
  {
    assert i + |s[i..e]| == e;
  }

  lemma TextPieceAt(s: string, m: seq<Option<nat>>, last: nat, i: nat)
    requires |m| == |s| && last <= i <= |s|
    requires forall k :: last <= k < i ==> m[k].None?
    ensures PieceAt(s, m, last, Text(s[last..i])) && last + |s[last..i]| == i
  {
    assert last + |s[last..i]| == i;
  }

  /** The pending text, the match at `i` and the pieces after it. */
  lemma FaithfulLinkStep(s: string, m: seq<Option<nat>>, last: nat, i: nat, e: nat, rest: seq<Piece>)
    requires |m| == |s| && last <= i < e <= |s| && m[i] == Some(e)
    requires forall k :: last <= k < i ==> m[k].None?
    requires Faithful(s, m, e, rest)
    ensures Faithful(s, m, last, Pending(s, last, i, [Link(s[i..e], Href(s[i..e]))] + rest))
  {
    var link := Link(s[i..e], Href(s[i..e]));
    LinkPieceAt(s, m, i, e);
    FaithfulCons(s, m, i, link, rest);
    FaithfulPending(s, m, last, i, [link] + rest);
  }

  /** The pending text in front of pieces that read `s` from `i`. */
  lemma FaithfulPending(s: string, m: seq<Option<nat>>, last: nat, i: nat, tail: seq<Piece>)
    requires |m| == |s| && last <= i <= |s| && Faithful(s, m, i, tail)
    requires forall k :: last <= k < i ==> m[k].None?
    ensures Faithful(s, m, last, Pending(s, last, i, tail))
  {
    if last < i {
      TextPieceAt(s, m, last, i);
      FaithfulCons(s, m, last, Text(s[last..i]), tail);
    }
  }

  lemma FaithfulEnd(s: string, m: seq<Option<nat>>, last: nat)
    requires |m| == |s| && last <= |s| && forall k :: last <= k < |s| ==> m[k].None?
    ensures Faithful(s, m, last, if last < |s| then [Text(s[last..])] else [])
  {
    if last < |s| {
      var t := Text(s[last..]);
      assert s[last..last + |s[last..]|] == s[last..];
      assert PieceAt(s, m, last, t);
      FaithfulCons(s, m, last, t, []);
      assert [t] + [] == [t];
    }
  }

  lemma {:induction false} ScanFaithful(s: string, m: seq<Option<nat>>, last: nat, i: nat)
    requires MatchTable(s, m) && last <= i <= |s| && forall k :: last <= k < i ==> m[k].None?
    ensures Faithful(s, m, last, Scan(s, last, i))
    decreases |s| - i
  {
    if i == |s| {
      FaithfulEnd(s, m, last);
    } else if MatchAt(s, i).None? {
      assert m[i].None?;
      ScanFaithful(s, m, last, i + 1);
    } else {
      var e := MatchAt(s, i).value;
      assert m[i] == Some(e);
      ScanFaithful(s, m, e, e);
      FaithfulLinkStep(s, m, last, i, e, Scan(s, e, e));
    }
  }

  /** The pieces of a non-empty input read it left to right: the links are
      exactly the leftmost matches, and no match starts inside a text
      piece. */
  lemma ConvertFaithful(s: string)
    requires s != ""
    ensures Faithful(s, Matches(s), 0, Convert(s))
  {
    ScanFaithful(s, Matches(s), 0, 0);
    ScanFlatten(s, 0, 0);
  }

  /** The target gets `https://` only for a lower-case `www`: matching
      ignores case, the prefix test does not. */
  lemma HrefExamples()
    ensures Href("www.a.b") == "https://www.a.b"
    ensures Href("WWW.a.b") == "WWW.a.b"
    ensures Href("http://a") == "http://a"
  {
    assert "WWW.a.b"[..3][0] == 'W';
  }

  lemma UpperCaseSchemeMatches()
    ensures MatchAt("WWW.a", 0) == Some(5)
    ensures MatchAt("HTTPS://a", 0) == Some(9)
    ensures MatchAt("www.", 0).None?
  {
    assert MatchesAt("WWW.a", 0, "www.");
    assert !MatchesAt("WWW.a", 0, "http://");
    assert MatchesAt("HTTPS://a", 0, "https://");
  }

  // ---------------------------------------------------------------------
  // The loop

  /** The pieces from the end of the previous match, when the next match
      is `[start, end)`. */
  lemma ScanAtMatch(s: string, last: nat, start: nat, end: nat)
    requires last <= start < |s| && MatchAt(s, start) == Some(end) && NoMatchIn(s, last, start)
    ensures Scan(s, last, last) == Pending(s, last, start, [Link(s[start..end], Href(s[start..end]))] + Scan(s, end, end))
  {
    ScanSkip(s, last, last, start);
  }

  /** The loop invariant survives one match. */
  lemma LoopStep(s: string, parts: seq<Piece>, last: nat, start: nat, end: nat)
    requires last <= start < |s| && MatchAt(s, start) == Some(end) && NoMatchIn(s, last, start)
    requires parts + Scan(s, last, last) == Scan(s, 0, 0)
    ensures (parts + Pending(s, last, start, [Link(s[start..end], Href(s[start..end]))])) + Scan(s, end, end) == Scan(s, 0, 0)
  {
    var link, rest := [Link(s[start..end], Href(s[start..end]))], Scan(s, end, end);
    ScanAtMatch(s, last, start, end);
    PendingAppend(s, last, start, link, rest);
    assert (parts + Pending(s, last, start, link)) + rest == parts + (Pending(s, last, start, link) + rest);
  }

  lemma PendingAppend(s: string, last: nat, i: nat, a: seq<Piece>, b: seq<Piece>)
    requires last <= i <= |s|
    ensures Pending(s, last, i, a) + b == Pending(s, last, i, a + b)
  {
    if last < i {
      assert ([Text(s[last..i])] + a) + b == [Text(s[last..i])] + (a + b);
    }
  }

  /** After the last match the loop's pieces plus the trailing text are
      the result. */
  lemma LoopEnd(s: string, parts: seq<Piece>, last: nat)
    requires last <= |s| && NoMatchIn(s, last, |s|)
    requires parts + Scan(s, last, last) == Scan(s, 0, 0)
    ensures var r := if last < |s| then parts + [Text(s[last..])] else parts;
            (if r == [] then [Text(s)] else r) == Convert(s)
  {
    ScanAtEnd(s, last);
  }

  /** The pieces from the end of the last match. */
  lemma ScanAtEnd(s: string, last: nat)
    requires last <= |s| && NoMatchIn(s, last, |s|)
    ensures Scan(s, last, last) == if last < |s| then [Text(s[last..])] else []
  {
    ScanSkip(s, last, last, |s|);
  }

  /** One `regex.exec` from `from`: the leftmost match at or after it. */
  method NextMatch(s: string, from: nat) returns (m: Option<(nat, nat)>)
    requires from <= |s|
    ensures m.Some? ==> from <= m.value.0 < |s| && MatchAt(s, m.value.0) == Some(m.value.1)
    ensures m.Some? ==> NoMatchIn(s, from, m.value.0)
    ensures m.None? ==> NoMatchIn(s, from, |s|)
  {
    var i := from;
    while i < |s|
      invariant from <= i <= |s| && NoMatchIn(s, from, i)
    {
      var e := MatchAt(s, i);
      if e.Some? {
        return Some((i, e.value));
      }
      i := i + 1;
    }
    return None;
  }

  /** `convertLinksToElements`: push the pending text and the link of each
      match, then the text after the last match; the input itself when
      nothing was pushed. */
  method ConvertLinksToElements(text: string) returns (parts: seq<Piece>)
    ensures parts == Convert(text)
  {
    parts := [];
    var last := 0;
    var m := NextMatch(text, 0);
    while m.Some?
      invariant last <= |text|
      invariant m.Some? ==> last <= m.value.0 < |text| && MatchAt(text, m.value.0) == Some(m.value.1)
      invariant m.Some? ==> NoMatchIn(text, last, m.value.0)
      invariant m.None? ==> NoMatchIn(text, last, |text|)
      invariant parts + Scan(text, last, last) == Scan(text, 0, 0)
      decreases |text| - last
    {
      var start := m.value.0;
      var end := m.value.1;
      LoopStep(text, parts, last, start, end);
      parts := parts + Pending(text, last, start, [Link(text[start..end], Href(text[start..end]))]);
      last := end;
      m := NextMatch(text, last);
    }
    LoopEnd(text, parts, last);
    if last < |text| {
      parts := parts + [Text(text[last..])];
    }
    if parts == [] {
      parts := [Text(text)];
    }
  }

  // ---------------------------------------------------------------------
  // Line breaks

  function NewlineCount(s: string): nat
  {
    if s == [] then 0 else (if s[0] == '\n' then 1 else 0) + NewlineCount(s[1..])
  }

  /** `s.split('\n')`: one entry per line, none holding a line break. */
  function Lines(s: string): (r: seq<string>)
    ensures |r| == NewlineCount(s) + 1
    ensures forall k :: 0 <= k < |r| ==> '\n' !in r[k]
  {
    if s == [] then [""]
    else
      var rest := Lines(s[1..]);
      if s[0] == '\n' then [""] + rest else [[s[0]] + rest[0]] + rest[1..]
  }

  /** `ls.join('\n')`. */
  function JoinLines(ls: seq<string>): string
    requires |ls| >= 1
  {
    if |ls| == 1 then ls[0] else ls[0] + ("\n" + JoinLines(ls[1..]))
  }

  lemma JoinPrepend(c: char, ls: seq<string>)
    requires |ls| >= 1
    ensures JoinLines([[c] + ls[0]] + ls[1..]) == [c] + JoinLines(ls)
  {
    var l := [[c] + ls[0]] + ls[1..];
    if |ls| > 1 {
      assert l[1..] == ls[1..];
    }
  }

  /** Joining the lines with line breaks gives the text back. */
  lemma {:induction false} LinesRoundTrip(s: string)
    ensures JoinLines(Lines(s)) == s
  {
    if s != [] {
      var rest := Lines(s[1..]);
      LinesRoundTrip(s[1..]);
      if s[0] == '\n' {
        assert ([""] + rest)[1..] == rest;
      } else {
        JoinPrepend(s[0], rest);
      }
      assert s == [s[0]] + s[1..];
    }
  }

  /** `convertLinksToElementsWithLineBreaks`: each line converted on its
      own. */
  function ConvertLines(s: string): (r: seq<seq<Piece>>)
    ensures |r| == NewlineCount(s) + 1
    ensures forall k :: 0 <= k < |r| ==> r[k] == Convert(Lines(s)[k])
  {
    var ls := Lines(s);
    seq(|ls|, k requires 0 <= k < |ls| => Convert(ls[k]))
  }
}
