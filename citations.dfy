/**
 * The citation index and the streaming citation rewrite of the answer stage
 * (app/dewey.py:164-187), and the content normalisation of a search hit
 * (app/dewey.py:121).
 *
 * The rewrite is `re.sub(r'\[SRC(\d+)\]', ..., partial)`: a left-to-right,
 * non-overlapping scan. It is modelled as a tokenizer that splits the raw text
 * into literal characters and complete markers, and a renderer that replaces
 * each marker by a link.
 */
module Citations {
  import opened Wrappers
  import opened Strings

  /** One retrieved article, in the form the retrieval serialises it. */
  datatype Source = Source(url: string, publishDate: string, authors: seq<string>, headline: string, content: string)

  /** `content.replace("\n", " ").replace("\r", " ")` */
  function NormalizeContent(s: string): (r: string)
    ensures |r| == |s|
    ensures forall i :: 0 <= i < |s| ==> r[i] == (if s[i] == '\n' || s[i] == '\r' then ' ' else s[i])
  {
    if s == [] then []
    else [if s[0] == '\n' || s[0] == '\r' then ' ' else s[0]] + NormalizeContent(s[1..])
  }

  /** Normalised content is one line, and normalising it again changes nothing. */
  lemma NormalizeContentIdempotent(s: string)
    ensures '\n' !in NormalizeContent(s) && '\r' !in NormalizeContent(s)
    ensures NormalizeContent(NormalizeContent(s)) == NormalizeContent(s)
  {
    var r := NormalizeContent(s);
    assert forall i :: 0 <= i < |r| ==> r[i] != '\n' && r[i] != '\r';
  }

  // ---------------------------------------------------------------------------
  // The citation index
  // ---------------------------------------------------------------------------

  /** `urls` numbers the sources from 1: key i holds the url of the i-th source, and no other key is present. */
  ghost predicate IsSourceIndex(urls: map<int, string>, sources: seq<Source>)
  {
    && (forall i :: i in urls <==> 1 <= i <= |sources|)
    && (forall i :: 1 <= i <= |sources| ==> urls[i] == sources[i - 1].url)
  }

  /** The citation index of a list of sources, as a value. */
  function SourceIndex(sources: seq<Source>): (urls: map<int, string>)
    ensures IsSourceIndex(urls, sources)
  {
    if sources == [] then map[]
    else SourceIndex(sources[..|sources| - 1])[|sources| := sources[|sources| - 1].url]
  }

  /** The loop filling `source_urls`: source number i (from 1) maps to the url of the i-th source. */
  method BuildSourceUrls(sources: seq<Source>) returns (urls: map<int, string>)
    ensures IsSourceIndex(urls, sources)
    ensures urls == SourceIndex(sources)
  {
    urls := map[];
    var i := 1;
    while i <= |sources|
      invariant 1 <= i <= |sources| + 1
      invariant urls == SourceIndex(sources[..i - 1])
    {
      assert sources[..i][..i - 1] == sources[..i - 1];
      urls := urls[i := sources[i - 1].url];
      i := i + 1;
    }
    assert sources[..|sources|] == sources;
  }

  /** `source_urls.get(n, '#')` */
  function Lookup(urls: map<int, string>, n: int): string
  {
    if n in urls then urls[n] else "#"
  }

  // ---------------------------------------------------------------------------
  // Markers
  // ---------------------------------------------------------------------------

  /** The language of the pattern `\[SRC\d+\]`. */
  predicate IsMarker(t: string)
  {
    |t| >= 6 && t[..4] == "[SRC" && t[|t| - 1] == ']' && AllDigits(t[4..|t| - 1])
  }

  /** An unfinished marker: `[`, `[S`, `[SR`, `[SRC` or `[SRC` followed by digits only. */
  predicate IsOpenMarker(t: string)
  {
    && |t| >= 1
    && t[0] == '['
    && if |t| <= 4 then t == "[SRC"[..|t|] else t[..4] == "[SRC" && AllDigits(t[4..])
  }

  /** No suffix of the text is an unfinished marker. */
  predicate Closed(a: string)
    decreases |a|
  {
    a == [] || (!IsOpenMarker(a) && Closed(a[1..]))
  }

  /** The characters that could carry an unfinished marker on. */
  predicate MayContinue(c: char)
  {
    c == 'S' || c == 'R' || c == 'C' || c == ']' || IsDigit(c)
  }

  /** The length of the run of digits that starts the text. */
  function DigitRun(s: string): (n: nat)
    ensures n <= |s| && AllDigits(s[..n])
    ensures n < |s| ==> !IsDigit(s[n])
  {
    if s == [] || !IsDigit(s[0]) then 0
    else
      var n := 1 + DigitRun(s[1..]);
      assert forall i :: 1 <= i < n ==> s[..n][i] == s[1..][..n - 1][i - 1];
      n
  }

  lemma {:induction false} DigitRunExact(s: string, k: nat)
    requires k <= |s| && AllDigits(s[..k])
    requires k < |s| ==> !IsDigit(s[k])
    ensures DigitRun(s) == k
    decreases k
  {
    if k > 0 {
      assert s[..k][0] == s[0];
      assert s[1..][..k - 1] == s[..k][1..];
      DigitRunExact(s[1..], k - 1);
    }
  }

  /**
   * The scanner's test at the current position: the number of digits of the
   * marker that starts the text, if one does.
   */
  function MarkerAt(s: string): (r: Option<nat>)
    ensures r.Some? ==> && 1 <= r.value && 5 + r.value <= |s| && s[..4] == "[SRC"
                        && AllDigits(s[4..4 + r.value]) && s[4 + r.value] == ']'
  {
    if |s| >= 4 && s[..4] == "[SRC" then
      var d := DigitRun(s[4..]);
      assert s[4..][..d] == s[4..4 + d];
      if d >= 1 && 4 + d < |s| && s[4 + d] == ']' then Some(d) else None
    else None
  }

  /**
   * The scanner's test is the regular expression: it succeeds with d digits
   * exactly when the first 5 + d characters match `\[SRC\d+\]`, and that match
   * is the only one at this position.
   */
  lemma MarkerAtIsPattern(s: string)
    ensures MarkerAt(s).Some? ==> IsMarker(s[..5 + MarkerAt(s).value])
    ensures forall n :: 6 <= n <= |s| && IsMarker(s[..n]) ==> MarkerAt(s) == Some(n - 5)
    ensures MarkerAt(s).Some? ==> HasMarker(s)
  {
    if MarkerAt(s).Some? {
      var d := MarkerAt(s).value;
      SliceOfPrefix(s, 5 + d, 0, 4);
      SliceOfPrefix(s, 5 + d, 4, 4 + d);
      assert s[..5 + d][..4] == s[..5 + d][0..4];
      assert s[0..5 + d] == s[..5 + d];
    }
    forall n | 6 <= n <= |s| && IsMarker(s[..n]) ensures MarkerAt(s) == Some(n - 5) {
      var t := s[..n];
      assert s[..4] == t[..4];
      SliceOfPrefix(s, n, 4, n - 1);
      DropTake(s, 4, n - 1);
      DigitRunExact(s[4..], n - 5);
    }
  }

  /** Proof helper: a prefix of a suffix is a slice. */
  lemma DropTake(s: string, i: nat, j: nat)
    requires i <= j <= |s|
    ensures s[i..][..j - i] == s[i..j]
  {
  }

  /** Proof helper: a slice of a prefix is the same slice of the whole text. */
  lemma SliceOfPrefix(s: string, n: nat, i: nat, j: nat)
    requires i <= j <= n <= |s|
    ensures s[..n][i..j] == s[i..j]
  {
    forall k | 0 <= k < j - i ensures s[..n][i..j][k] == s[i..j][k] {
      assert s[..n][i..j][k] == s[i + k];
    }
  }

  /** Whatever follows a text does not change the test at its start, unless it can finish a marker left open. */
  lemma MarkerAtAppend(t: string, b: string)
    requires t != []
    requires !IsOpenMarker(t) || (b != [] && !MayContinue(b[0]))
    ensures MarkerAt(t + b) == MarkerAt(t)
  {
    var s := t + b;
    if |t| >= 4 && t[..4] == "[SRC" {
      assert s[..4] == "[SRC";
      var d := DigitRun(t[4..]);
      assert t[4..][..d] == s[4..][..d];
      if d < |t| - 4 {
        assert s[4..][d] == t[4..][d];
        DigitRunExact(s[4..], d);
      } else {
        assert t[4..] == t[4..][..d];
        assert IsOpenMarker(t);
        assert s[4..][d] == b[0];
        DigitRunExact(s[4..], d);
      }
    } else if |t| >= 4 {
      assert s[..4] == t[..4];
    } else if |s| >= 4 {
      if t[0] == '[' && t == "[SRC"[..|t|] {
        assert IsOpenMarker(t);
        assert s[|t|] == b[0];
        assert s[..4][|t|] == s[|t|];
      } else {
        assert s[..4][..|t|] == t;
      }
    }
  }

  // ---------------------------------------------------------------------------
  // Tokens
  // ---------------------------------------------------------------------------

  /** A piece of raw text as the scanner sees it. */
  datatype Piece = Literal(c: char) | Marker(digits: string)

  /** Every marker piece carries at least one digit and digits only. */
  predicate WellFormed(ps: seq<Piece>)
  {
    ps == [] || (PieceOk(ps[0]) && WellFormed(ps[1..]))
  }

  predicate PieceOk(p: Piece)
  {
    p.Marker? ==> p.digits != [] && AllDigits(p.digits)
  }

  /** The text of a complete marker with the given digits. */
  function MarkerText(d: string): string
  {
    "[SRC" + d + "]"
  }

  /** The raw text a piece stands for. */
  function PieceText(p: Piece): string
  {
    match p
    case Literal(c) => [c]
    case Marker(d) => "[SRC" + d + "]"
  }

  function RawText(ps: seq<Piece>): string
  {
    if ps == [] then "" else PieceText(ps[0]) + RawText(ps[1..])
  }

  lemma RawTextCons(p: Piece, rest: seq<Piece>)
    ensures RawText([p] + rest) == PieceText(p) + RawText(rest)
    ensures WellFormed(rest) && PieceOk(p) ==> WellFormed([p] + rest)
  {
    assert ([p] + rest)[1..] == rest;
  }

  /** The piece the scanner takes at the start of a non-empty text. */
  function Head(s: string): Piece
    requires s != []
  {
    match MarkerAt(s)
    case Some(d) => Marker(s[4..4 + d])
    case None => Literal(s[0])
  }

  /** How many characters that piece covers. */
  function HeadLength(s: string): (n: nat)
    requires s != []
    ensures 1 <= n <= |s|
    ensures Head(s).Marker? ==> Head(s).digits != [] && AllDigits(Head(s).digits)
  {
    match MarkerAt(s)
    case Some(d) => 5 + d
    case None => 1
  }

  /** The characters the first piece covers are the piece's own text. */
  lemma HeadText(s: string)
    requires s != []
    ensures s[..HeadLength(s)] == PieceText(Head(s))
  {
    if MarkerAt(s).Some? {
      var d := MarkerAt(s).value;
      assert s[..5 + d] == s[..4] + s[4..4 + d] + [s[4 + d]];
    }
  }

  /** The scan, piece by piece from the left. */
  function Tokens(s: string): (ps: seq<Piece>)
    ensures WellFormed(ps)
    decreases |s|
  {
    if s == [] then []
    else
      var n := HeadLength(s);
      var rest := Tokens(s[n..]);
      RawTextCons(Head(s), rest);
      [Head(s)] + rest
  }

  /** The pieces concatenate back to the text, so nothing is lost, reordered or duplicated. */
  lemma {:induction false} TokensRawText(s: string)
    ensures RawText(Tokens(s)) == s
    decreases |s|
  {
    if s != [] {
      TokensRawText(s[HeadLength(s)..]);
      TokensRawTextStep(s);
    }
  }

  lemma TokensRawTextStep(s: string)
    requires s != []
    requires RawText(Tokens(s[HeadLength(s)..])) == s[HeadLength(s)..]
    ensures RawText(Tokens(s)) == s
  {
    var n, h := HeadLength(s), Head(s);
    var rest := Tokens(s[n..]);
    RawTextCons(h, rest);
    HeadText(s);
    calc {
      RawText(Tokens(s));
      { assert Tokens(s) == [h] + rest; }
      RawText([h] + rest);
      PieceText(h) + RawText(rest);
      s[..n] + s[n..];
      { TakeDrop(s, n); }
      s;
    }
  }

  /** Proof helper: a text is its first `n` characters followed by the rest. */
  lemma TakeDrop<T>(s: seq<T>, n: nat)
    requires n <= |s|
    ensures s[..n] + s[n..] == s
  {
  }

  /** `[[<digits>]](<url or #>)`: the digits are kept verbatim, the url is looked up by their value. */
  function Cite(digits: string, urls: map<int, string>): string
    requires AllDigits(digits)
  {
    "[[" + digits + "]](" + Lookup(urls, DecimalValue(digits)) + ")"
  }

  /** A literal stays as it is; a marker becomes its citation. */
  function RenderPiece(p: Piece, urls: map<int, string>): string
    requires p.Marker? ==> AllDigits(p.digits)
  {
    match p
    case Literal(c) => [c]
    case Marker(d) => Cite(d, urls)
  }

  function Render(ps: seq<Piece>, urls: map<int, string>): string
    requires WellFormed(ps)
  {
    if ps == [] then "" else RenderPiece(ps[0], urls) + Render(ps[1..], urls)
  }

  /** The substitution applied to the whole accumulator. */
  function Rewrite(s: string, urls: map<int, string>): string
  {
    Render(Tokens(s), urls)
  }

  lemma {:induction false} RenderAppend(ps: seq<Piece>, qs: seq<Piece>, urls: map<int, string>)
    requires WellFormed(ps) && WellFormed(qs)
    ensures WellFormed(ps + qs)
    ensures Render(ps + qs, urls) == Render(ps, urls) + Render(qs, urls)
  {
    WellFormedAppend(ps, qs);
    if ps != [] {
      var first, rest, tail := RenderPiece(ps[0], urls), Render(ps[1..], urls), Render(qs, urls);
      RenderAppend(ps[1..], qs, urls);
      RenderConsAppend(ps, qs, urls);
      assert Render(ps, urls) == first + rest;
      Assoc(first, rest, tail);
    } else {
      assert ps + qs == qs;
    }
  }

  /** Proof helper: the rendering of `ps + qs` starts with that of the first piece of `ps`. */
  lemma RenderConsAppend(ps: seq<Piece>, qs: seq<Piece>, urls: map<int, string>)
    requires ps != [] && WellFormed(ps + qs) && WellFormed(ps[1..] + qs)
    ensures Render(ps + qs, urls) == RenderPiece(ps[0], urls) + Render(ps[1..] + qs, urls)
  {
    ConsAppend(ps, qs);
  }

  /** Proof helper: the head and tail of a concatenation with a non-empty left side. */
  lemma ConsAppend<T>(xs: seq<T>, ys: seq<T>)
    requires xs != []
    ensures (xs + ys)[0] == xs[0] && (xs + ys)[1..] == xs[1..] + ys
  {
  }

  lemma {:induction false} WellFormedAppend(ps: seq<Piece>, qs: seq<Piece>)
    requires WellFormed(ps) && WellFormed(qs)
    ensures WellFormed(ps + qs)
  {
    if ps != [] {
      ConsAppend(ps, qs);
      WellFormedAppend(ps[1..], qs);
    } else {
      assert ps + qs == qs;
    }
  }

  /** A rendering is never shorter than the raw text; it is the raw text when there is no marker, and longer otherwise. */
  lemma {:induction false} RenderLength(ps: seq<Piece>, urls: map<int, string>)
    requires WellFormed(ps)
    ensures |Render(ps, urls)| >= |RawText(ps)|
    ensures (forall i :: 0 <= i < |ps| ==> ps[i].Literal?) ==> Render(ps, urls) == RawText(ps)
    ensures (exists i :: 0 <= i < |ps| && ps[i].Marker?) ==> |Render(ps, urls)| > |RawText(ps)|
  {
    if ps != [] {
      RenderLength(ps[1..], urls);
      if exists i :: 0 <= i < |ps| && ps[i].Marker? {
        var i :| 0 <= i < |ps| && ps[i].Marker?;
        if i > 0 {
          assert ps[1..][i - 1].Marker?;
        }
      }
    }
  }

  lemma {:induction false} ClosedSuffix(a: string, k: nat)
    requires Closed(a) && k <= |a|
    ensures Closed(a[k..])
    decreases k
  {
    if k > 0 {
      ClosedSuffix(a[1..], k - 1);
      assert a[1..][k - 1..] == a[k..];
    }
  }

  lemma HeadAppend(a: string, b: string)
    requires a != []
    requires !IsOpenMarker(a) || (b != [] && !MayContinue(b[0]))
    ensures Head(a + b) == Head(a) && HeadLength(a + b) == HeadLength(a)
  {
    var s := a + b;
    MarkerAtAppend(a, b);
    assert s[0] == a[0];
    if MarkerAt(a).Some? {
      var d := MarkerAt(a).value;
      assert s[4..4 + d] == a[4..4 + d];
    }
  }

  /** The scan of a concatenation is the concatenation of the scans, when the first part leaves no marker open. */
  lemma {:induction false} TokensAppend(a: string, b: string)
    requires Closed(a) || (b != [] && !MayContinue(b[0]))
    ensures Tokens(a + b) == Tokens(a) + Tokens(b)
    decreases |a|
  {
    if a == [] {
      assert a + b == b;
    } else {
      var n := HeadLength(a);
      ClosedAfterHead(a, b);
      TokensHeadAppend(a, b);
      TokensAppend(a[n..], b);
      TokensCons(a);
      Assoc([Head(a)], Tokens(a[n..]), Tokens(b));
    }
  }

  /** Proof helper: one step of the scan. */
  lemma TokensCons(s: string)
    requires s != []
    ensures Tokens(s) == [Head(s)] + Tokens(s[HeadLength(s)..])
  {
  }

  /** What the first part leaves open is still harmless after its first piece. */
  lemma ClosedAfterHead(a: string, b: string)
    requires a != []
    requires Closed(a) || (b != [] && !MayContinue(b[0]))
    ensures !IsOpenMarker(a) || (b != [] && !MayContinue(b[0]))
    ensures Closed(a[HeadLength(a)..]) || (b != [] && !MayContinue(b[0]))
  {
    if Closed(a) {
      ClosedSuffix(a, HeadLength(a));
    }
  }

  /** The scan of a concatenation starts with the first part's first piece. */
  lemma TokensHeadAppend(a: string, b: string)
    requires a != []
    requires !IsOpenMarker(a) || (b != [] && !MayContinue(b[0]))
    ensures Tokens(a + b) == [Head(a)] + Tokens(a[HeadLength(a)..] + b)
  {
    HeadAppend(a, b);
    assert (a + b)[HeadLength(a)..] == a[HeadLength(a)..] + b;
  }

  /**
   * Appending text changes nothing already rewritten, when the text so far
   * ends in no unfinished marker or the appended text cannot finish one.
   */
  lemma RewriteAppend(a: string, b: string, urls: map<int, string>)
    requires Closed(a) || (b != [] && !MayContinue(b[0]))
    ensures Rewrite(a + b, urls) == Rewrite(a, urls) + Rewrite(b, urls)
  {
    TokensAppend(a, b);
    RenderAppend(Tokens(a), Tokens(b), urls);
  }

  lemma TokensOfMarker(d: string, q: string)
    requires d != [] && AllDigits(d)
    ensures Tokens(MarkerText(d) + q) == [Marker(d)] + Tokens(q)
  {
    var m := MarkerText(d);
    var s := m + q;
    assert s[..|m|] == m;
    assert m[4..|m| - 1] == d;
    MarkerAtIsPattern(s);
    assert MarkerAt(s) == Some(|d|);
    assert s[4..4 + |d|] == d;
    assert Head(s) == Marker(d) && HeadLength(s) == |m|;
    assert s[|m|..] == q;
  }

  lemma RewriteOfMarker(d: string, q: string, urls: map<int, string>)
    requires d != [] && AllDigits(d)
    ensures Rewrite(MarkerText(d) + q, urls) == Cite(d, urls) + Rewrite(q, urls)
  {
    TokensOfMarker(d, q);
    RenderAppend([Marker(d)], Tokens(q), urls);
    assert [Marker(d)][1..] == [];
  }

  /**
   * A complete marker is rewritten wherever it stands, whatever precedes or
   * follows it, and the text around it is rewritten on its own.
   */
  lemma RewriteMarkerInContext(p: string, d: string, q: string, urls: map<int, string>)
    requires d != [] && AllDigits(d)
    ensures Rewrite(p + MarkerText(d) + q, urls) == Rewrite(p, urls) + Cite(d, urls) + Rewrite(q, urls)
  {
    var tail := MarkerText(d) + q;
    assert p + MarkerText(d) + q == p + tail;
    assert tail[0] == '[';
    RewriteAppend(p, tail, urls);
    RewriteOfMarker(d, q, urls);
  }

  /** Some substring of the text is a complete marker. */
  predicate HasMarker(s: string)
  {
    exists i, n :: 0 <= i < n <= |s| && IsMarker(s[i..n])
  }

  lemma NoMarkerSuffix(s: string)
    requires s != [] && !HasMarker(s)
    ensures !HasMarker(s[1..])
  {
    forall i, n | 0 <= i < n <= |s[1..]| ensures !IsMarker(s[1..][i..n]) {
      assert s[1..][i..n] == s[i + 1..n + 1];
    }
  }

  lemma NoMarkerHead(s: string)
    requires s != [] && !HasMarker(s)
    ensures Head(s) == Literal(s[0]) && HeadLength(s) == 1
  {
    MarkerAtIsPattern(s);
  }

  lemma {:induction false} NoMarkerAllLiteral(s: string)
    requires !HasMarker(s)
    ensures forall i :: 0 <= i < |Tokens(s)| ==> Tokens(s)[i].Literal?
    decreases |s|
  {
    if s != [] {
      NoMarkerHead(s);
      NoMarkerSuffix(s);
      NoMarkerAllLiteral(s[1..]);
      var ps := Tokens(s);
      assert ps == [Literal(s[0])] + Tokens(s[1..]);
      forall i | 0 <= i < |ps| ensures ps[i].Literal? {
        if i > 0 { assert ps[i] == Tokens(s[1..])[i - 1]; }
      }
    }
  }

  lemma RewriteNoShorter(s: string, urls: map<int, string>)
    ensures |Rewrite(s, urls)| >= |s|
  {
    TokensRawText(s);
    RenderLength(Tokens(s), urls);
  }

  /** A text holding a complete marker always comes out longer. */
  lemma RewriteLonger(s: string, urls: map<int, string>)
    requires HasMarker(s)
    ensures |Rewrite(s, urls)| > |s|
  {
    var i, n :| 0 <= i < n <= |s| && IsMarker(s[i..n]);
    var m := s[i..n];
    var d := m[4..|m| - 1];
    var p, q := s[..i], s[n..];
    assert m == MarkerText(d);
    assert s == p + MarkerText(d) + q;
    RewriteMarkerInContext(p, d, q, urls);
    RewriteNoShorter(p, urls);
    RewriteNoShorter(q, urls);
    assert |Cite(d, urls)| > |m|;
  }

  /** The rewrite returns the text unchanged exactly when it holds no complete marker. */
  lemma RewriteUnchangedIff(s: string, urls: map<int, string>)
    ensures Rewrite(s, urls) == s <==> !HasMarker(s)
  {
    if HasMarker(s) {
      RewriteLonger(s, urls);
    } else {
      NoMarkerAllLiteral(s);
      TokensRawText(s);
      RenderLength(Tokens(s), urls);
    }
  }

  /** No url in the index holds a `[`, so no citation can spell a marker. */
  predicate PlainUrls(urls: map<int, string>)
  {
    forall n :: n in urls ==> '[' !in urls[n]
  }

  /** Proof helper: one step of the rewrite. */
  lemma RewriteCons(s: string, urls: map<int, string>)
    requires s != []
    ensures Rewrite(s, urls) == RenderPiece(Head(s), urls) + Rewrite(s[HeadLength(s)..], urls)
  {
    TokensCons(s);
    var rest := Tokens(s[HeadLength(s)..]);
    assert ([Head(s)] + rest)[1..] == rest;
  }

  /** A prefix of the rewrite that holds no `[` is the same prefix of the text. */
  lemma {:induction false} PlainPrefix(r: string, k: nat, urls: map<int, string>)
    requires k <= |Rewrite(r, urls)| && '[' !in Rewrite(r, urls)[..k]
    ensures k <= |r| && r[..k] == Rewrite(r, urls)[..k]
    decreases |r|
  {
    if k > 0 {
      var out := Rewrite(r, urls);
      RewriteFirst(r, urls);
      assert out[..k][0] == out[0];
      assert r != [] && MarkerAt(r).None?;
      PrefixStep(r, out, Rewrite(r[1..], urls), k);
      PlainPrefix(r[1..], k - 1, urls);
    }
  }

  /** Proof helper: one character of `PlainPrefix`. */
  lemma PrefixStep(r: string, out: string, rest: string, k: nat)
    requires 0 < k <= |out| && r != [] && out == [r[0]] + rest && '[' !in out[..k]
    ensures k - 1 <= |rest| && '[' !in rest[..k - 1]
    ensures k - 1 <= |r[1..]| && r[1..][..k - 1] == rest[..k - 1] ==> r[..k] == out[..k]
  {
    assert out[..k] == [r[0]] + rest[..k - 1];
    if k - 1 <= |r[1..]| {
      assert r[..k] == [r[0]] + r[1..][..k - 1];
    }
  }

  /** Proof helper: how the rewrite begins. */
  lemma RewriteFirst(r: string, urls: map<int, string>)
    ensures r == [] ==> Rewrite(r, urls) == []
    ensures r != [] && MarkerAt(r).Some? ==> |Rewrite(r, urls)| > 0 && Rewrite(r, urls)[0] == '['
    ensures r != [] && MarkerAt(r).None? ==> Rewrite(r, urls) == [r[0]] + Rewrite(r[1..], urls)
  {
    if r != [] {
      RewriteCons(r, urls);
      if MarkerAt(r).Some? {
        CiteStart(Head(r).digits, urls);
      }
    }
  }

  /** Inside a citation only its first two characters are `[`. */
  lemma CiteBrackets(dg: string, urls: map<int, string>, i: nat)
    requires AllDigits(dg) && PlainUrls(urls)
    requires 2 <= i < |Cite(dg, urls)|
    ensures Cite(dg, urls)[i] != '['
  {
    var u := Lookup(urls, DecimalValue(dg));
    var c := Cite(dg, urls);
    assert c == "[[" + dg + "]](" + u + ")";
    if i < 2 + |dg| {
      assert c[i] == dg[i - 2];
    } else if i < 5 + |dg| {
      assert c[i] == "]]("[i - 2 - |dg|];
    } else if i < 5 + |dg| + |u| {
      assert c[i] == u[i - 5 - |dg|];
    }
  }

  /** Proof helper: the first three characters of a citation. */
  lemma CiteStart(dg: string, urls: map<int, string>)
    requires AllDigits(dg) && dg != []
    ensures |Cite(dg, urls)| >= 6
    ensures Cite(dg, urls)[0] == '[' && Cite(dg, urls)[1] == '[' && IsDigit(Cite(dg, urls)[2])
  {
    assert Cite(dg, urls)[2] == dg[0];
  }

  /** Proof helper: a text whose first two characters are not `[S` starts no marker. */
  lemma NotMarkerStart(t: string)
    requires |t| < 2 || t[0] != '[' || t[1] != 'S'
    ensures MarkerAt(t).None?
  {
    if |t| >= 4 {
      assert t[..4][0] == t[0] && t[..4][1] == t[1];
    }
  }

  /** No marker starts inside a citation, whatever follows it. */
  lemma CiteNoMarkerAt(dg: string, rest: string, urls: map<int, string>, k: nat)
    requires AllDigits(dg) && dg != [] && PlainUrls(urls)
    requires k < |Cite(dg, urls)|
    ensures MarkerAt((Cite(dg, urls) + rest)[k..]).None?
  {
    var c := Cite(dg, urls);
    var t := (c + rest)[k..];
    CiteStart(dg, urls);
    if k < 2 {
      assert t[1] == c[k + 1];
    } else {
      CiteBrackets(dg, urls, k);
      assert t[0] == c[k];
    }
    NotMarkerStart(t);
  }

  /** Proof helper: putting the same first character before equal prefixes. */
  lemma LiteralPrefix(s: string, r: string, k: nat)
    requires s != [] && k < |s| && k <= |r| && s[1..][..k] == r[..k]
    ensures s[..k + 1] == ([s[0]] + r)[..k + 1]
  {
    assert s[..k + 1] == [s[0]] + s[1..][..k];
    assert ([s[0]] + r)[..k + 1] == [s[0]] + r[..k];
  }

  /** No marker starts at a literal character of the rewrite: it would have been a marker of the text. */
  lemma LiteralNoMarkerAt(s: string, urls: map<int, string>)
    requires s != [] && MarkerAt(s).None?
    ensures MarkerAt([s[0]] + Rewrite(s[1..], urls)).None?
  {
    var r := Rewrite(s[1..], urls);
    if MarkerAt([s[0]] + r).Some? {
      var d := MarkerAt([s[0]] + r).value;
      LiteralMarker(s, r, d);
      PlainPrefix(s[1..], 4 + d, urls);
    }
  }

  /**
   * Proof helper: a marker at the start of `[s[0]] + r` has no `[` after its
   * opening one, and it would be a marker at the start of `s` if `r` began as
   * `s[1..]` does.
   */
  lemma LiteralMarker(s: string, r: string, d: nat)
    requires s != [] && MarkerAt([s[0]] + r) == Some(d)
    ensures 4 + d <= |r| && '[' !in r[..4 + d]
    ensures 4 + d <= |s[1..]| && s[1..][..4 + d] == r[..4 + d] ==> MarkerAt(s) == Some(d)
  {
    var t := [s[0]] + r;
    MarkerTailPlain(t);
    assert r[..4 + d] == t[1..5 + d];
    if 4 + d <= |s[1..]| && s[1..][..4 + d] == r[..4 + d] {
      LiteralPrefix(s, r, 4 + d);
      MarkerPrefixSame(s, t);
    }
  }

  /** After its opening `[`, a marker holds no `[`. */
  lemma MarkerTailPlain(t: string)
    requires MarkerAt(t).Some?
    ensures '[' !in t[1..5 + MarkerAt(t).value]
  {
    var d := MarkerAt(t).value;
    assert t[1..5 + d] == t[..4][1..] + t[4..4 + d] + [t[4 + d]];
    assert t[..4][1..] == "SRC";
    DigitsHoldNoBracket(t[4..4 + d]);
  }

  /** Proof helper: a run of digits holds no `[`. */
  lemma DigitsHoldNoBracket(ds: string)
    requires AllDigits(ds)
    ensures '[' !in ds
  {
  }

  /** Proof helper: a text that begins like a marker begins it the same way, with the same digits. */
  lemma MarkerPrefixSame(s: string, t: string)
    requires MarkerAt(t).Some? && 5 + MarkerAt(t).value <= |s|
    requires s[..5 + MarkerAt(t).value] == t[..5 + MarkerAt(t).value]
    ensures MarkerAt(s) == MarkerAt(t)
  {
    MarkerAtIsPattern(t);
    MarkerAtIsPattern(s);
  }

  /** No position of the rewrite starts a complete marker, when no url holds a `[`. */
  lemma {:induction false} RewriteNoMarkerAt(s: string, urls: map<int, string>)
    requires PlainUrls(urls)
    ensures forall k :: 0 <= k < |Rewrite(s, urls)| ==> MarkerAt(Rewrite(s, urls)[k..]).None?
    decreases |s|
  {
    if s != [] {
      var h := HeadLength(s);
      RewriteNoMarkerAt(s[h..], urls);
      RewriteCons(s, urls);
      PieceNoMarkerAt(s, urls);
      NoMarkerAtAppend(RenderPiece(Head(s), urls), Rewrite(s[h..], urls));
    }
  }

  /** No marker starts within the rendering of the first piece, whatever the rest renders to. */
  lemma PieceNoMarkerAt(s: string, urls: map<int, string>)
    requires s != [] && PlainUrls(urls)
    ensures forall k :: 0 <= k < |RenderPiece(Head(s), urls)| ==>
      MarkerAt((RenderPiece(Head(s), urls) + Rewrite(s[HeadLength(s)..], urls))[k..]).None?
  {
    var r := Rewrite(s[HeadLength(s)..], urls);
    if MarkerAt(s).Some? {
      forall k | 0 <= k < |RenderPiece(Head(s), urls)|
        ensures MarkerAt((RenderPiece(Head(s), urls) + r)[k..]).None?
      {
        CiteNoMarkerAt(Head(s).digits, r, urls, k);
      }
    } else {
      LiteralNoMarkerAt(s, urls);
    }
  }

  /** Proof helper: positions of a concatenation are positions of its first part or of its second. */
  lemma NoMarkerAtAppend(p: string, r: string)
    requires forall k :: 0 <= k < |r| ==> MarkerAt(r[k..]).None?
    requires forall k :: 0 <= k < |p| ==> MarkerAt((p + r)[k..]).None?
    ensures forall k :: 0 <= k < |p + r| ==> MarkerAt((p + r)[k..]).None?
  {
    forall k | |p| <= k < |p + r| ensures MarkerAt((p + r)[k..]).None? {
      assert (p + r)[k..] == r[k - |p|..];
    }
  }

  /** A text in which no position starts a marker holds no marker. */
  lemma NoMarkerFromPositions(s: string)
    requires forall k :: 0 <= k < |s| ==> MarkerAt(s[k..]).None?
    ensures !HasMarker(s)
  {
    if HasMarker(s) {
      var i, n :| 0 <= i < n <= |s| && IsMarker(s[i..n]);
      assert s[i..][..n - i] == s[i..n];
      MarkerAtIsPattern(s[i..]);
    }
  }

  /** No complete marker survives the rewrite, when no url holds a `[`. */
  lemma RewriteLeavesNoMarker(s: string, urls: map<int, string>)
    requires PlainUrls(urls)
    ensures !HasMarker(Rewrite(s, urls))
  {
    RewriteNoMarkerAt(s, urls);
    NoMarkerFromPositions(Rewrite(s, urls));
  }

  /**
   * The condition on the urls is needed: a url that itself spells the marker
   * it is looked up for leaves that marker in the rewritten text.
   */
  lemma MarkerInUrlSurvives(d: string, urls: map<int, string>)
    requires d != [] && AllDigits(d)
    requires DecimalValue(d) in urls && urls[DecimalValue(d)] == MarkerText(d)
    ensures HasMarker(Rewrite(MarkerText(d), urls))
  {
    RewriteOfMarker(d, "", urls);
    assert MarkerText(d) + "" == MarkerText(d);
    assert Rewrite("", urls) == "";
    var out := Cite(d, urls);
    var m := MarkerText(d);
    assert out == "[[" + d + "]](" + m + ")";
    assert Rewrite(m, urls) == out;
    var i := 5 + |d|;
    assert out[i..i + |m|] == m;
    MarkerTextIsMarker(d);
    MarkerWitness(out, i, i + |m|);
  }

  /** Proof helper: `[SRC` + digits + `]` is a complete marker. */
  lemma MarkerTextIsMarker(d: string)
    requires d != [] && AllDigits(d)
    ensures IsMarker(MarkerText(d))
  {
    var m := MarkerText(d);
    assert m[..4] == "[SRC" && m[4..|m| - 1] == d;
  }

  /** Proof helper: a marker at a known place. */
  lemma MarkerWitness(s: string, i: nat, n: nat)
    requires i < n <= |s| && IsMarker(s[i..n])
    ensures HasMarker(s)
  {
  }

  /** The rewrite is idempotent when no url holds a `[`. */
  lemma RewriteIdempotent(s: string, urls: map<int, string>)
    requires PlainUrls(urls)
    ensures Rewrite(Rewrite(s, urls), urls) == Rewrite(s, urls)
  {
    RewriteLeavesNoMarker(s, urls);
    RewriteUnchangedIff(Rewrite(s, urls), urls);
  }

  /** Text without any `[` is never changed and never leaves a marker open. */
  lemma NoBracket(s: string, urls: map<int, string>)
    requires '[' !in s
    ensures Rewrite(s, urls) == s && Closed(s)
  {
    assert !HasMarker(s) by {
      forall i, n | 0 <= i < n <= |s| ensures !IsMarker(s[i..n]) {
        assert s[i..n][0] == s[i];
      }
    }
    RewriteUnchangedIff(s, urls);
    NoBracketClosed(s);
  }

  lemma {:induction false} NoBracketClosed(s: string)
    requires '[' !in s
    ensures Closed(s)
    decreases |s|
  {
    if s != [] {
      assert s[0] != '[';
      NoBracketClosed(s[1..]);
    }
  }

  // ---------------------------------------------------------------------------
  // The stream
  // ---------------------------------------------------------------------------

  /** One event of the generation stream; only text deltas carry answer text. */
  datatype Chunk = Chunk(kind: string, delta: string)

  const TextDelta: string := "response.output_text.delta"

  predicate Emits(c: Chunk)
  {
    c.kind == TextDelta && c.delta != ""
  }

  /** The deltas that reach the accumulator, in arrival order. */
  function Deltas(chunks: seq<Chunk>): (ds: seq<string>)
    ensures |ds| <= |chunks|
    ensures forall k :: 0 <= k < |ds| ==> ds[k] != ""
  {
    if chunks == [] then []
    else
      var last := chunks[|chunks| - 1];
      Deltas(chunks[..|chunks| - 1]) + (if Emits(last) then [last.delta] else [])
  }

  function Concat(ds: seq<string>): string
  {
    if ds == [] then "" else Concat(ds[..|ds| - 1]) + ds[|ds| - 1]
  }

  /** The emissions for a sequence of deltas, built the way the loop builds them. */
  function Emissions(ds: seq<string>, urls: map<int, string>): (es: seq<string>)
    ensures |es| == |ds|
  {
    if ds == [] then [] else Emissions(ds[..|ds| - 1], urls) + [Rewrite(Concat(ds), urls)]
  }

  /** Emission k is the rewrite of the first k + 1 deltas put together. */
  lemma {:induction false} EmissionsAt(ds: seq<string>, urls: map<int, string>)
    ensures |Emissions(ds, urls)| == |ds|
    ensures forall k :: 0 <= k < |ds| ==> Emissions(ds, urls)[k] == Rewrite(Concat(ds[..k + 1]), urls)
  {
    if ds != [] {
      var init := ds[..|ds| - 1];
      EmissionsAt(init, urls);
      forall k | 0 <= k < |ds| ensures Emissions(ds, urls)[k] == Rewrite(Concat(ds[..k + 1]), urls) {
        if k < |init| {
          assert init[..k + 1] == ds[..k + 1];
        } else {
          assert ds[..k + 1] == ds;
        }
      }
    }
  }

  /**
   * The stream loop: one emission per non-empty text delta, the k-th being the
   * rewrite of the first k deltas put together.
   */
  method StreamAnswer(chunks: seq<Chunk>, urls: map<int, string>) returns (texts: seq<string>)
    ensures |texts| == |Deltas(chunks)|
    ensures forall k :: 0 <= k < |texts| ==> texts[k] == Rewrite(Concat(Deltas(chunks)[..k + 1]), urls)
  {
    texts := [];
    var partial := "";
    for j := 0 to |chunks|
      invariant partial == Concat(Deltas(chunks[..j]))
      invariant texts == Emissions(Deltas(chunks[..j]), urls)
    {
      var chunk := chunks[j];
      DeltasStep(chunks, j);
      if chunk.kind == TextDelta {
        if chunk.delta != "" {
          partial := partial + chunk.delta;
          texts := texts + [Rewrite(partial, urls)];
        }
      }
    }
    assert chunks[..|chunks|] == chunks;
    EmissionsAt(Deltas(chunks), urls);
  }

  /** One more chunk adds its delta to the accumulator and one emission, or nothing. */
  lemma DeltasStep(chunks: seq<Chunk>, j: nat)
    requires j < |chunks|
    ensures var before, after := Deltas(chunks[..j]), Deltas(chunks[..j + 1]);
      && (Emits(chunks[j]) ==> after == before + [chunks[j].delta])
      && (!Emits(chunks[j]) ==> after == before)
      && (Emits(chunks[j]) ==> Concat(after) == Concat(before) + chunks[j].delta)
      && (forall urls :: Emits(chunks[j]) ==>
            Emissions(after, urls) == Emissions(before, urls) + [Rewrite(Concat(after), urls)])
  {
    assert chunks[..j + 1][..j] == chunks[..j];
    var before, after := Deltas(chunks[..j]), Deltas(chunks[..j + 1]);
    if Emits(chunks[j]) {
      assert after[..|after| - 1] == before;
    }
  }

  /** The raw accumulator only grows: every earlier accumulator is a prefix of every later one. */
  lemma {:induction false} AccumulatorGrows(ds: seq<string>, j: nat, k: nat)
    requires j <= k <= |ds|
    ensures Concat(ds[..j]) <= Concat(ds[..k])
    decreases k - j
  {
    if j < k {
      AccumulatorGrows(ds, j, k - 1);
      assert ds[..k][..k - 1] == ds[..k - 1];
    }
  }

  /**
   * An emission extends the previous one by the rewrite of the new delta,
   * when the text before it ends in no unfinished marker or the delta cannot
   * finish one.
   */
  lemma EmissionExtends(ds: seq<string>, k: nat, urls: map<int, string>)
    requires k < |ds| && ds[k] != ""
    requires Closed(Concat(ds[..k])) || !MayContinue(ds[k][0])
    ensures Rewrite(Concat(ds[..k + 1]), urls) == Rewrite(Concat(ds[..k]), urls) + Rewrite(ds[k], urls)
  {
    assert ds[..k + 1][..k] == ds[..k];
    RewriteAppend(Concat(ds[..k]), ds[k], urls);
  }

  /** Appending text never shortens the rewrite, whatever the text so far leaves open. */
  lemma RewriteNeverShrinks(a: string, b: string, urls: map<int, string>)
    ensures |Rewrite(a, urls)| <= |Rewrite(a + b, urls)|
  {
    if Closed(a) {
      RewriteAppend(a, b, urls);
    } else if b != [] {
      var k := OpenSuffix(a);
      var p, o := a[..k], a[k..];
      assert a == p + o && a + b == p + (o + b);
      assert (o + b)[0] == o[0] == '[';
      RewriteAppend(p, o, urls);
      RewriteAppend(p, o + b, urls);
      OpenMarkerHasNoMarker(o);
      RewriteUnchangedIff(o, urls);
      RewriteNoShorter(o + b, urls);
    } else {
      assert a + b == a;
    }
  }

  /** A text that is not closed has a suffix that is an unfinished marker. */
  lemma {:induction false} OpenSuffix(a: string) returns (k: nat)
    requires !Closed(a)
    ensures k < |a| && IsOpenMarker(a[k..])
    decreases |a|
  {
    if IsOpenMarker(a) {
      k := 0;
      assert a[0..] == a;
    } else {
      var j := OpenSuffix(a[1..]);
      assert a[1..][j..] == a[j + 1..];
      k := j + 1;
    }
  }

  /** An unfinished marker holds no `]`, so no complete marker either. */
  lemma OpenMarkerHasNoMarker(o: string)
    requires IsOpenMarker(o)
    ensures !HasMarker(o)
  {
    assert forall i :: 0 <= i < |o| ==> o[i] != ']' by {
      forall i | 0 <= i < |o| ensures o[i] != ']' {
        if |o| <= 4 {
          assert o[i] == "[SRC"[i];
        } else if i < 4 {
          assert o[i] == o[..4][i];
        } else {
          assert o[i] == o[4..][i - 4];
        }
      }
    }
    forall i, n | 0 <= i < n <= |o| ensures !IsMarker(o[i..n]) {
      assert o[i..n][n - i - 1] == o[n - 1];
    }
  }

  /** No emission is shorter than the one before it. */
  lemma EmissionNeverShrinks(ds: seq<string>, k: nat, urls: map<int, string>)
    requires k + 1 < |ds|
    ensures |Emissions(ds, urls)[k]| <= |Emissions(ds, urls)[k + 1]|
  {
    EmissionsAt(ds, urls);
    assert ds[..k + 2][..k + 1] == ds[..k + 1];
    RewriteNeverShrinks(Concat(ds[..k + 1]), ds[k + 1], urls);
  }

  /**
   * Once the accumulator holds a complete marker, every later emission shows
   * it rewritten, at the same place.
   */
  lemma MarkerStaysRewritten(ds: seq<string>, k: nat, later: nat, p: string, d: string, q: string, urls: map<int, string>)
    requires k <= later <= |ds|
    requires d != [] && AllDigits(d)
    requires Concat(ds[..k]) == p + MarkerText(d) + q
    ensures exists rest :: Rewrite(Concat(ds[..later]), urls) == Rewrite(p, urls) + Cite(d, urls) + Rewrite(q + rest, urls)
  {
    AccumulatorGrows(ds, k, later);
    var whole := Concat(ds[..later]);
    var rest := whole[|Concat(ds[..k])|..];
    assert whole == p + MarkerText(d) + (q + rest);
    RewriteMarkerInContext(p, d, q + rest, urls);
  }

  /**
   * Rewritten emissions need not extend each other: while a marker waits for
   * its closing bracket it is shown raw, and the emission that completes it
   * replaces the raw text by a link.
   */
  lemma SplitMarkerIsReplaced(d: string, urls: map<int, string>)
    requires d != [] && AllDigits(d)
    ensures Rewrite("[SRC" + d, urls) == "[SRC" + d
    ensures Rewrite(MarkerText(d), urls) == Cite(d, urls)
    ensures !(Rewrite("[SRC" + d, urls) <= Rewrite(MarkerText(d), urls))
  {
    var open := "[SRC" + d;
    assert !HasMarker(open) by {
      forall i, n | 0 <= i < n <= |open| ensures !IsMarker(open[i..n]) {
        assert open[i..n][n - i - 1] == open[n - 1];
        assert n - 1 >= 4 ==> open[n - 1] == d[n - 5];
      }
    }
    RewriteUnchangedIff(open, urls);
    RewriteOfMarker(d, "", urls);
    assert MarkerText(d) + "" == MarkerText(d);
    assert Tokens("") == [];
    var cite := Cite(d, urls);
    assert cite[1] == '[' && open[1] == 'S';
  }

  /**
   * A marker split across two deltas, as in "... [SR" followed by
   * "C1] ... [SRC2] ...": the emission before its end shows the raw prefix,
   * and the one after shows the link, with the other marker of the same
   * delta rewritten too.
   */
  lemma SplitCitationStream(a: string, b: string, c: string, e: string, d1: string, d2: string, urls: map<int, string>)
    requires '[' !in a && '[' !in b && '[' !in c && '[' !in e
    requires d1 != [] && AllDigits(d1) && d2 != [] && AllDigits(d2)
    ensures Emissions([a, b + "[SR", "C" + d1 + "]" + (c + MarkerText(d2) + e)], urls)
         == [a, a + b + "[SR", a + b + Cite(d1, urls) + c + Cite(d2, urls) + e]
  {
    var q := c + MarkerText(d2) + e;
    var y, z := b + "[SR", "C" + d1 + "]" + q;
    var ds := [a, y, z];
    EmissionsOfThree(ds, urls);
    NoBracket(a, urls);
    SecondEmission(a, b, urls);
    ThirdEmission(a, b, c, e, d1, d2, urls);
  }

  /** Proof helper: the second emission of `SplitCitationStream`. */
  lemma SecondEmission(a: string, b: string, urls: map<int, string>)
    requires '[' !in a && '[' !in b
    ensures Rewrite(a + (b + "[SR"), urls) == a + b + "[SR"
  {
    assert a + (b + "[SR") == (a + b) + "[SR";
    OpenMarkerShownRaw(a + b, urls);
  }

  /** Proof helper: the third emission of `SplitCitationStream`. */
  lemma ThirdEmission(a: string, b: string, c: string, e: string, d1: string, d2: string, urls: map<int, string>)
    requires '[' !in a && '[' !in b && '[' !in c && '[' !in e
    requires d1 != [] && AllDigits(d1) && d2 != [] && AllDigits(d2)
    ensures Rewrite(a + (b + "[SR") + ("C" + d1 + "]" + (c + MarkerText(d2) + e)), urls)
         == a + b + Cite(d1, urls) + c + Cite(d2, urls) + e
  {
    var q := c + MarkerText(d2) + e;
    ThirdAccumulator(a, b, d1, q);
    ClosedMarkersRewritten(a + b, d1, c, d2, e, urls);
  }

  /** Proof helper: the accumulator after the third delta of `SplitCitationStream`, regrouped around the completed marker. */
  lemma ThirdAccumulator(a: string, b: string, d: string, q: string)
    ensures a + (b + "[SR") + ("C" + d + "]" + q) == (a + b) + MarkerText(d) + q
  {
    var open := "[SR";
    var glued := "[SRC";
    assert open + "C" == glued;
    calc {
      a + (b + open) + ("C" + d + "]" + q);
      (a + b) + (open + "C") + d + "]" + q;
      (a + b) + glued + d + "]" + q;
    }
  }

  lemma EmissionsOfThree(ds: seq<string>, urls: map<int, string>)
    requires |ds| == 3
    ensures Emissions(ds, urls)
         == [Rewrite(ds[0], urls), Rewrite(ds[0] + ds[1], urls), Rewrite(ds[0] + ds[1] + ds[2], urls)]
  {
    EmissionsAt(ds, urls);
    ConcatThree(ds);
    var es := Emissions(ds, urls);
    assert es[0] == Rewrite(ds[0], urls);
    assert es[1] == Rewrite(ds[0] + ds[1], urls);
    assert es[2] == Rewrite(ds[0] + ds[1] + ds[2], urls);
  }

  lemma ConcatThree(ds: seq<string>)
    requires |ds| == 3
    ensures Concat(ds[..1]) == ds[0]
    ensures Concat(ds[..2]) == ds[0] + ds[1]
    ensures Concat(ds[..3]) == ds[0] + ds[1] + ds[2]
  {
    assert ds[..1][..0] == [];
    assert ds[..2][..1] == ds[..1];
    assert ds[..3][..2] == ds[..2];
  }

  /** Text without brackets followed by an unfinished `[SR` is emitted as it is. */
  lemma OpenMarkerShownRaw(p: string, urls: map<int, string>)
    requires '[' !in p
    ensures Rewrite(p + "[SR", urls) == p + "[SR"
  {
    NoBracket(p, urls);
    assert !HasMarker("[SR");
    RewriteUnchangedIff("[SR", urls);
    RewriteAppend(p, "[SR", urls);
  }

  /** A complete marker between texts without brackets is replaced, the texts kept. */
  lemma MarkerBetweenPlainTexts(p: string, d: string, q: string, urls: map<int, string>)
    requires '[' !in p && '[' !in q
    requires d != [] && AllDigits(d)
    ensures Rewrite(p + MarkerText(d) + q, urls) == p + Cite(d, urls) + q
  {
    RewriteMarkerInContext(p, d, q, urls);
    NoBracket(p, urls);
    NoBracket(q, urls);
  }

  /** Two complete markers between texts without brackets are both replaced, the texts kept. */
  lemma ClosedMarkersRewritten(p: string, d1: string, c: string, d2: string, e: string, urls: map<int, string>)
    requires '[' !in p && '[' !in c && '[' !in e
    requires d1 != [] && AllDigits(d1) && d2 != [] && AllDigits(d2)
    ensures Rewrite(p + MarkerText(d1) + (c + MarkerText(d2) + e), urls)
         == p + Cite(d1, urls) + c + Cite(d2, urls) + e
  {
    var q := c + MarkerText(d2) + e;
    var x1, x2 := Cite(d1, urls), Cite(d2, urls);
    MarkerBetweenPlainTexts(c, d2, e, urls);
    RewriteMarkerInContext(p, d1, q, urls);
    NoBracket(p, urls);
    calc {
      Rewrite(p + MarkerText(d1) + q, urls);
      Rewrite(p, urls) + x1 + Rewrite(q, urls);
      p + x1 + (c + x2 + e);
      { SeqAssoc(p + x1, c, x2, e); }
      p + x1 + c + x2 + e;
    }
  }

  /** Proof helper: regrouping a concatenation of four texts. */
  lemma SeqAssoc(w: string, x: string, y: string, z: string)
    ensures w + (x + y + z) == w + x + y + z
  {
  }

  /** Proof helper: regrouping a concatenation of three sequences. */
  lemma Assoc<T>(x: seq<T>, y: seq<T>, z: seq<T>)
    ensures x + (y + z) == (x + y) + z
  {
  }

  /** A citation links to the url of the source it numbers, and to `#` when there is no such source. */
  lemma CitationTarget(sources: seq<Source>, d: string)
    requires d != [] && AllDigits(d)
    ensures 1 <= DecimalValue(d) <= |sources| ==>
      Cite(d, SourceIndex(sources)) == "[[" + d + "]](" + sources[DecimalValue(d) - 1].url + ")"
    ensures !(1 <= DecimalValue(d) <= |sources|) ==> Cite(d, SourceIndex(sources)) == "[[" + d + "]](#)"
  {
  }

  /** Leading zeros are kept in the link text and do not change the source a citation points to. */
  lemma CiteLeadingZero(d: string, urls: map<int, string>)
    requires d != [] && AllDigits(d)
    ensures Cite("0" + d, urls) == "[[" + ("0" + d) + "]](" + Lookup(urls, DecimalValue(d)) + ")"
  {
    DecimalValueLeadingZero(d);
  }
}
