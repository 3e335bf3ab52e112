/** What a formatted log line looks like: every `$text`, `$level`, `$time`
    and `$token` in the format is replaced by its value, any other
    `$identifier` is copied, and the values put in are never scanned again. */
module LineProperties {
  import opened StringTranslate
  import opened Template

  /** Every key of the table is `$` followed by a `\w+` word. */
  predicate PlaceholderKeys(t: map<string, string>)
  {
    forall k :: k in t ==> |k| >= 2 && k[0] == '$' && IsWord(k[1..])
  }

  /** The value a provided placeholder is replaced with. */
  function Filled(id: string, text: string, name: string, time: string, token: string): string
    requires Provided(id)
  {
    if id == "text" then text
    else if id == "level" then Pad(name, LevelWidth)
    else if id == "time" then time
    else token
  }

  // ---------------------------------------------------------------------
  // Small facts about the strings involved

  lemma ProvidedWord(id: string)
    requires Provided(id)
    ensures id != [] && IsWord(id)
  {
  }

  lemma WordHasNoDollar(w: string)
    requires IsWord(w)
    ensures '$' !in w
  {
    assert !IsWordChar('$');
  }

  lemma DropDollarHead(id: string, b: string)
    ensures ("$" + id + b)[1..] == id + b
  {
  }

  /** `a + "$" + id + b`, cut just before its `$`. */
  lemma CutAtDollar(a: string, id: string, b: string)
    ensures a + "$" + id + b == a + ("$" + id + b)
    ensures (a + "$" + id + b)[|a|] == '$'
  {
  }

  // ---------------------------------------------------------------------
  // The substitution table, seen through its keys

  lemma FactsShape(t: map<string, string>, ids: seq<string>, text: string, name: string, time: string, token: string)
    requires TableFacts(t, ids, text, name, time, token)
    ensures PlaceholderKeys(t)
  {
    forall k | k in t
      ensures IsWord(k[1..])
    {
      ProvidedWord(k[1..]);
    }
  }

  /** A provided name the format mentions has its value in the table. */
  lemma FilledPair(t: map<string, string>, ids: seq<string>, id: string, text: string, name: string, time: string, token: string)
    requires TableFacts(t, ids, text, name, time, token)
    requires Provided(id) && id in ids
    ensures "$" + id in t && t["$" + id] == Filled(id, text, name, time, token)
  {
  }

  /** No table key can straddle a character outside `\w`. */
  lemma NoKeyAcrossNonWord(s: string, cut: nat, t: map<string, string>)
    requires PlaceholderKeys(t)
    requires cut < |s| && !IsWordChar(s[cut])
    ensures NoKeyAcross(s, cut, t)
  {
    forall p, q | 0 <= p < cut < q <= |s|
      ensures s[p..q] !in t
    {
      assert s[p..q][1..][cut - p - 1] == s[cut];
    }
  }

  // ---------------------------------------------------------------------
  // How strtr treats each kind of segment of a format

  /** Text without a `$` is copied as it is. */
  lemma LiteralSegment(lit: string, rest: string, t: map<string, string>)
    requires PlaceholderKeys(t)
    requires '$' !in lit
    ensures Strtr(lit + rest, t) == lit + Strtr(rest, t)
  {
    LiteralPrefix(lit, rest, t);
  }

  /** A placeholder with a pair, ended by a non-word character, is replaced. */
  lemma KnownSegment(id: string, b: string, t: map<string, string>)
    requires PlaceholderKeys(t)
    requires "$" + id in t
    requires b == [] || !IsWordChar(b[0])
    ensures Strtr("$" + id + b, t) == t["$" + id] + Strtr(b, t)
  {
    var k := "$" + id;
    forall m | |k| < m <= |k + b|
      ensures (k + b)[..m] !in t
    {
      assert (k + b)[..m][1..][|k| - 1] == b[0];
    }
    KeyAtHead(k, b, t);
  }

  /** No key starts a `$identifier` none of whose prefixes has a pair. */
  lemma NoKeyAtUnknown(id: string, b: string, t: map<string, string>)
    requires PlaceholderKeys(t)
    requires b == [] || !IsWordChar(b[0])
    requires forall k :: k in t && k != [] ==> !(k[1..] <= id)
    ensures forall m :: 0 < m <= |"$" + id + b| ==> ("$" + id + b)[..m] !in t
  {
    var s := "$" + id + b;
    forall m | 0 < m <= |s|
      ensures s[..m] !in t
    {
      if m - 1 <= |id| {
        assert s[..m][1..] == id[..m - 1];
      } else {
        assert s[..m][1..][|id|] == b[0];
      }
    }
  }

  /** At a `$identifier` none of whose prefixes has a pair, the `$` is copied. */
  lemma UnknownHead(id: string, b: string, t: map<string, string>)
    requires PlaceholderKeys(t)
    requires b == [] || !IsWordChar(b[0])
    requires forall k :: k in t && k != [] ==> !(k[1..] <= id)
    ensures Strtr("$" + id + b, t) == "$" + Strtr(id + b, t)
  {
    var s := "$" + id + b;
    NoKeyAtUnknown(id, b, t);
    NoKeyAtHead(s, t);
    DropDollarHead(id, b);
  }

  /** A placeholder none of whose prefixes has a pair is copied. */
  lemma UnknownSegment(id: string, b: string, t: map<string, string>)
    requires PlaceholderKeys(t)
    requires id != [] && IsWord(id)
    requires b == [] || !IsWordChar(b[0])
    requires forall k :: k in t && k != [] ==> !(k[1..] <= id)
    ensures Strtr("$" + id + b, t) == "$" + id + Strtr(b, t)
  {
    UnknownHead(id, b, t);
    WordSegment(id, b, t);
    DollarAssoc(id, Strtr(b, t));
  }

  /** A word holds no `$`, so strtr copies it. */
  lemma WordSegment(w: string, b: string, t: map<string, string>)
    requires PlaceholderKeys(t)
    requires IsWord(w)
    ensures Strtr(w + b, t) == w + Strtr(b, t)
  {
    WordHasNoDollar(w);
    LiteralSegment(w, b, t);
  }

  lemma DollarAssoc(id: string, x: string)
    ensures "$" + (id + x) == "$" + id + x
  {
  }

  /** A placeholder with a pair, anywhere in the subject. */
  lemma KnownInside(a: string, id: string, b: string, t: map<string, string>)
    requires PlaceholderKeys(t)
    requires "$" + id in t
    requires b == [] || !IsWordChar(b[0])
    ensures Strtr(a + "$" + id + b, t) == Strtr(a, t) + t["$" + id] + Strtr(b, t)
  {
    CutAtDollar(a, id, b);
    NoKeyAcrossNonWord(a + "$" + id + b, |a|, t);
    Split(a, "$" + id + b, t);
    KnownSegment(id, b, t);
  }

  /** A placeholder without a pair for any of its prefixes, anywhere in the subject. */
  lemma UnknownInside(a: string, id: string, b: string, t: map<string, string>)
    requires PlaceholderKeys(t)
    requires id != [] && IsWord(id)
    requires b == [] || !IsWordChar(b[0])
    requires forall k :: k in t && k != [] ==> !(k[1..] <= id)
    ensures Strtr(a + "$" + id + b, t) == Strtr(a, t) + "$" + id + Strtr(b, t)
  {
    CutAtDollar(a, id, b);
    NoKeyAcrossNonWord(a + "$" + id + b, |a|, t);
    Split(a, "$" + id + b, t);
    UnknownSegment(id, b, t);
    CutAtDollar(Strtr(a, t), id, Strtr(b, t));
  }

  // ---------------------------------------------------------------------
  // The formatted line

  /** Each occurrence of `$text`, `$level`, `$time` or `$token` that is not
      the head of a longer identifier is replaced by its value, wherever it
      stands and however often the format repeats it (a second `$level`
      gets the same eight-wide value as the first). */
  lemma KnownPlaceholder(a: string, id: string, b: string, text: string, name: string, time: string, token: string)
    requires Provided(id)
    requires b == [] || !IsWordChar(b[0])
    ensures var f := a + "$" + id + b;
      var t := Table(text, name, Placeholders(f), time, token);
      FormatLine(f, text, name, time, token) == Strtr(a, t) + Filled(id, text, name, time, token) + Strtr(b, t)
  {
    var f := a + "$" + id + b;
    var ids := Placeholders(f);
    var t := Table(text, name, ids, time, token);
    ProvidedWord(id);
    PlaceholderFound(a, id, b);
    TableContents(ids, text, name, time, token);
    FactsShape(t, ids, text, name, time, token);
    FilledPair(t, ids, id, text, name, time, token);
    KnownInside(a, id, b, t);
  }

  /** A `$identifier` with no value, such as `$foo`, is left in the line
      verbatim, as long as no provided name is a prefix of it. */
  lemma UnknownPlaceholder(a: string, id: string, b: string, text: string, name: string, time: string, token: string)
    requires id != [] && IsWord(id)
    requires b == [] || !IsWordChar(b[0])
    requires NoProvidedPrefix(id)
    ensures var f := a + "$" + id + b;
      var t := Table(text, name, Placeholders(f), time, token);
      FormatLine(f, text, name, time, token) == Strtr(a, t) + "$" + id + Strtr(b, t)
  {
    var f := a + "$" + id + b;
    var ids := Placeholders(f);
    var t := Table(text, name, ids, time, token);
    TableContents(ids, text, name, time, token);
    FactsShape(t, ids, text, name, time, token);
    UnknownInside(a, id, b, t);
  }

  // ---------------------------------------------------------------------
  // Formats cut into pieces

  /** A format read as a sequence of pieces: literal text, or a `$identifier`. */
  datatype Piece = Lit(chars: string) | Var(id: string)

  function PieceText(p: Piece): string
  {
    match p
    case Lit(s) => s
    case Var(id) => "$" + id
  }

  /** The format the pieces spell. */
  function Render(ps: seq<Piece>): string
  {
    if ps == [] then [] else PieceText(ps[0]) + Render(ps[1..])
  }

  /** The identifiers of the placeholder pieces, in order. */
  function Ids(ps: seq<Piece>): seq<string>
  {
    if ps == [] then []
    else (if ps[0].Var? then [ps[0].id] else []) + Ids(ps[1..])
  }

  /** The pieces that may follow a placeholder: nothing, another
      placeholder, or text that starts with a non-word character. */
  predicate Separated(rest: seq<Piece>)
  {
    rest == [] || rest[0].Var? || (rest[0].chars != [] && !IsWordChar(rest[0].chars[0]))
  }

  /** Literal pieces are non-empty and free of `$`; a placeholder piece is
      a `\w+` word that the following piece cannot extend. */
  predicate WellFormed(ps: seq<Piece>)
  {
    ps == [] ||
    ((match ps[0]
      case Lit(s) => s != [] && '$' !in s
      case Var(id) => id != [] && IsWord(id) && Separated(ps[1..]))
     && WellFormed(ps[1..]))
  }

  /** A placeholder piece that is provided or has no provided name as a prefix. */
  predicate PieceResolvable(p: Piece)
  {
    p.Var? ==> Provided(p.id) || NoProvidedPrefix(p.id)
  }

  /** Every placeholder piece is either provided or has no provided name as
      a prefix. */
  predicate Resolvable(ps: seq<Piece>)
  {
    ps == [] || (PieceResolvable(ps[0]) && Resolvable(ps[1..]))
  }

  predicate NoProvidedPrefix(id: string)
  {
    !("text" <= id) && !("level" <= id) && !("time" <= id) && !("token" <= id)
  }

  /** The value a piece should show in the line: text copied, a provided
      placeholder replaced by its value, any other placeholder copied. */
  function PieceValue(p: Piece, text: string, name: string, time: string, token: string): string
  {
    match p
    case Lit(s) => s
    case Var(id) => if Provided(id) then Filled(id, text, name, time, token) else "$" + id
  }

  /** The line the pieces should produce. */
  function Expand(ps: seq<Piece>, text: string, name: string, time: string, token: string): string
  {
    if ps == [] then []
    else PieceValue(ps[0], text, name, time, token) + Expand(ps[1..], text, name, time, token)
  }

  /** What strtr gives for one piece under a table `t`. */
  function PieceSub(p: Piece, t: map<string, string>): string
  {
    match p
    case Lit(s) => s
    case Var(id) => if "$" + id in t then t["$" + id] else "$" + id
  }

  function Substituted(ps: seq<Piece>, t: map<string, string>): string
  {
    if ps == [] then [] else PieceSub(ps[0], t) + Substituted(ps[1..], t)
  }

  /** A placeholder piece that has a pair, or of which no key is a prefix. */
  predicate PieceResolved(p: Piece, t: map<string, string>)
  {
    p.Var? ==> "$" + p.id in t || forall k :: k in t && k != [] ==> !(k[1..] <= p.id)
  }

  predicate Resolved(ps: seq<Piece>, t: map<string, string>)
  {
    ps == [] || (PieceResolved(ps[0], t) && Resolved(ps[1..], t))
  }

  lemma RenderHead(ps: seq<Piece>)
    requires WellFormed(ps) && Separated(ps)
    ensures Render(ps) == [] || !IsWordChar(Render(ps)[0])
  {
    if ps != [] && ps[0].Lit? {
      assert Render(ps)[0] == ps[0].chars[0];
    }
  }

  /** The scan skips text that holds no `$`. */
  lemma {:induction false} SkipLiteral(s: string, rest: string)
    requires '$' !in s
    ensures Placeholders(s + rest) == Placeholders(rest)
    decreases |s|
  {
    var u := s + rest;
    if s == [] {
      assert u == rest;
    } else if |u| >= 2 {
      assert u[0] == s[0];
      assert u[1..] == s[1..] + rest;
      assert s == [s[0]] + s[1..];
      SkipLiteral(s[1..], rest);
    }
  }

  /** The scan of well-formed pieces finds exactly their placeholders. */
  lemma {:induction false} PiecesScan(ps: seq<Piece>)
    requires WellFormed(ps)
    ensures Placeholders(Render(ps)) == Ids(ps)
    decreases |ps|
  {
    if ps != [] {
      var rest := Render(ps[1..]);
      PiecesScan(ps[1..]);
      match ps[0]
      case Lit(s) =>
        SkipLiteral(s, rest);
      case Var(id) =>
        RenderHead(ps[1..]);
        PlaceholderHead(id, rest);
    }
  }

  /** strtr over well-formed pieces replaces each piece on its own. */
  lemma {:induction false} PiecesStrtr(ps: seq<Piece>, t: map<string, string>)
    requires PlaceholderKeys(t)
    requires WellFormed(ps) && Resolved(ps, t)
    ensures Strtr(Render(ps), t) == Substituted(ps, t)
    decreases |ps|
  {
    if ps == [] {
      assert Strtr([], t) == [];
    } else {
      var rest := Render(ps[1..]);
      PiecesStrtr(ps[1..], t);
      match ps[0]
      case Lit(s) =>
        LiteralSegment(s, rest, t);
      case Var(id) =>
        RenderHead(ps[1..]);
        if "$" + id in t {
          KnownSegment(id, rest, t);
        } else {
          UnknownSegment(id, rest, t);
        }
    }
  }

  /** Under the logger's table, the pieces are resolved and substitute to
      their expected values. */
  lemma {:induction false} PiecesResolved(ps: seq<Piece>, t: map<string, string>, ids: seq<string>,
                                          text: string, name: string, time: string, token: string)
    requires TableFacts(t, ids, text, name, time, token)
    requires Resolvable(ps)
    requires forall id :: id in Ids(ps) ==> id in ids
    ensures Resolved(ps, t)
    ensures Substituted(ps, t) == Expand(ps, text, name, time, token)
    decreases |ps|
  {
    if ps != [] {
      assert forall id :: id in Ids(ps[1..]) ==> id in Ids(ps);
      PiecesResolved(ps[1..], t, ids, text, name, time, token);
      assert ps[0].Var? ==> ps[0].id in Ids(ps);
      HeadResolved(ps[0], t, ids, text, name, time, token);
    }
  }

  /** One piece under the logger's table. */
  lemma HeadResolved(p: Piece, t: map<string, string>, ids: seq<string>,
                     text: string, name: string, time: string, token: string)
    requires TableFacts(t, ids, text, name, time, token)
    requires PieceResolvable(p)
    requires p.Var? ==> p.id in ids
    ensures PieceResolved(p, t)
    ensures PieceSub(p, t) == PieceValue(p, text, name, time, token)
  {
    if p.Var? {
      if Provided(p.id) {
        FilledPair(t, ids, p.id, text, name, time, token);
      } else {
        DropDollar(p.id);
      }
    }
  }

  /** A format made of text and placeholders, each placeholder ended by a
      non-word character: every `$text`, `$level`, `$time` and `$token` is
      replaced by its value (the level padded to eight), every other
      placeholder such as `$foo` is left verbatim, and the text in between
      is copied. */
  lemma FormatOfPieces(ps: seq<Piece>, text: string, name: string, time: string, token: string)
    requires WellFormed(ps) && Resolvable(ps)
    ensures FormatLine(Render(ps), text, name, time, token) == Expand(ps, text, name, time, token)
  {
    var ids := Ids(ps);
    PiecesScan(ps);
    TableContents(ids, text, name, time, token);
    var t := Table(text, name, ids, time, token);
    FactsShape(t, ids, text, name, time, token);
    PiecesResolved(ps, t, ids, text, name, time, token);
    PiecesStrtr(ps, t);
  }

  /** The default format, piece by piece. */
  const DefaultPieces: seq<Piece> :=
    [Lit("["), Var("time"), Lit("] "), Var("token"), Lit(" - "), Var("level"), Lit(" - "), Var("text")]

  lemma RenderCons(p: Piece, rest: seq<Piece>)
    ensures Render([p] + rest) == PieceText(p) + Render(rest)
  {
    assert ([p] + rest)[1..] == rest;
  }

  lemma {:induction false} RenderAppend(a: seq<Piece>, b: seq<Piece>)
    ensures Render(a + b) == Render(a) + Render(b)
    decreases |a|
  {
    if a == [] {
      assert a + b == b;
    } else {
      assert (a + b)[1..] == a[1..] + b;
      RenderAppend(a[1..], b);
    }
  }

  lemma RenderPair(p: Piece, q: Piece)
    ensures Render([p, q]) == PieceText(p) + PieceText(q)
  {
    assert [p, q] == [p] + [q];
    RenderCons(p, [q]);
    RenderCons(q, []);
    assert [q] + [] == [q];
  }

  lemma RenderFour(a: seq<Piece>, b: seq<Piece>, c: seq<Piece>, d: seq<Piece>)
    ensures Render(a + (b + (c + d))) == Render(a) + (Render(b) + (Render(c) + Render(d)))
  {
    RenderAppend(c, d);
    RenderAppend(b, c + d);
    RenderAppend(a, b + (c + d));
  }

  lemma DefaultPairs()
    ensures Render([Lit("["), Var("time")]) == "[$time"
    ensures Render([Lit("] "), Var("token")]) == "] $token"
    ensures Render([Lit(" - "), Var("level")]) == " - $level"
    ensures Render([Lit(" - "), Var("text")]) == " - $text"
  {
    RenderPair(Lit("["), Var("time"));
    RenderPair(Lit("] "), Var("token"));
    RenderPair(Lit(" - "), Var("level"));
    RenderPair(Lit(" - "), Var("text"));
  }

  lemma DefaultFormatText()
    ensures "[$time" + ("] $token" + (" - $level" + " - $text")) == DefaultFormat
  {
  }

  lemma DefaultSplit()
    ensures DefaultPieces
      == [Lit("["), Var("time")] + ([Lit("] "), Var("token")] + ([Lit(" - "), Var("level")] + [Lit(" - "), Var("text")]))
  {
  }

  lemma DefaultRender()
    ensures Render(DefaultPieces) == DefaultFormat
  {
    var a := [Lit("["), Var("time")];
    var b := [Lit("] "), Var("token")];
    var c := [Lit(" - "), Var("level")];
    var d := [Lit(" - "), Var("text")];
    DefaultSplit();
    RenderFour(a, b, c, d);
    DefaultPairs();
    DefaultFormatText();
  }

  lemma WellFormedPair(x: string, id: string, rest: seq<Piece>)
    requires x != [] && '$' !in x
    requires id != [] && IsWord(id)
    requires Separated(rest) && WellFormed(rest)
    ensures WellFormed([Lit(x), Var(id)] + rest)
  {
    var ps := [Lit(x), Var(id)] + rest;
    assert ps[1..][1..] == rest;
  }

  lemma ResolvablePair(x: string, id: string, rest: seq<Piece>)
    requires Provided(id) || NoProvidedPrefix(id)
    requires Resolvable(rest)
    ensures Resolvable([Lit(x), Var(id)] + rest)
  {
    var ps := [Lit(x), Var(id)] + rest;
    assert ps[1..][1..] == rest;
  }

  lemma DefaultWellFormed()
    ensures WellFormed(DefaultPieces) && Resolvable(DefaultPieces)
  {
    ProvidedWord("time");
    ProvidedWord("token");
    ProvidedWord("level");
    ProvidedWord("text");
    var d := [Lit(" - "), Var("text")] + [];
    var c := [Lit(" - "), Var("level")] + d;
    var b := [Lit("] "), Var("token")] + c;
    var a := [Lit("["), Var("time")] + b;
    WellFormedPair(" - ", "text", []);
    WellFormedPair(" - ", "level", d);
    WellFormedPair("] ", "token", c);
    WellFormedPair("[", "time", b);
    ResolvablePair(" - ", "text", []);
    ResolvablePair(" - ", "level", d);
    ResolvablePair("] ", "token", c);
    ResolvablePair("[", "time", b);
    DefaultSplit();
    assert [Lit(" - "), Var("text")] + [] == [Lit(" - "), Var("text")];
  }

  lemma {:induction false} ExpandAppend(a: seq<Piece>, b: seq<Piece>, text: string, name: string, time: string, token: string)
    ensures Expand(a + b, text, name, time, token) == Expand(a, text, name, time, token) + Expand(b, text, name, time, token)
    decreases |a|
  {
    if a == [] {
      assert a + b == b;
    } else {
      assert (a + b)[1..] == a[1..] + b;
      ExpandAppend(a[1..], b, text, name, time, token);
    }
  }

  lemma ExpandPair(p: Piece, q: Piece, text: string, name: string, time: string, token: string)
    ensures Expand([p, q], text, name, time, token)
      == PieceValue(p, text, name, time, token) + PieceValue(q, text, name, time, token)
  {
    assert [p, q][1..] == [q];
    assert [q][1..] == [];
    assert Expand([q], text, name, time, token) == PieceValue(q, text, name, time, token) + [];
  }

  lemma DefaultValues(text: string, name: string, time: string, token: string)
    ensures PieceValue(Var("time"), text, name, time, token) == time
    ensures PieceValue(Var("token"), text, name, time, token) == token
    ensures PieceValue(Var("level"), text, name, time, token) == Pad(name, LevelWidth)
    ensures PieceValue(Var("text"), text, name, time, token) == text
  {
  }

  lemma Regroup8(s0: string, s1: string, s2: string, s3: string, s4: string, s5: string, s6: string, s7: string)
    ensures (s0 + s1) + ((s2 + s3) + ((s4 + s5) + (s6 + s7))) == s0 + s1 + s2 + s3 + s4 + s5 + s6 + s7
  {
  }

  lemma DefaultExpand(text: string, name: string, time: string, token: string)
    ensures Expand(DefaultPieces, text, name, time, token)
      == "[" + time + "] " + token + " - " + Pad(name, LevelWidth) + " - " + text
  {
    var a := [Lit("["), Var("time")];
    var b := [Lit("] "), Var("token")];
    var c := [Lit(" - "), Var("level")];
    var d := [Lit(" - "), Var("text")];
    DefaultSplit();
    ExpandAppend(c, d, text, name, time, token);
    ExpandAppend(b, c + d, text, name, time, token);
    ExpandAppend(a, b + (c + d), text, name, time, token);
    ExpandPair(Lit("["), Var("time"), text, name, time, token);
    ExpandPair(Lit("] "), Var("token"), text, name, time, token);
    ExpandPair(Lit(" - "), Var("level"), text, name, time, token);
    ExpandPair(Lit(" - "), Var("text"), text, name, time, token);
    DefaultValues(text, name, time, token);
    Regroup8("[", time, "] ", token, " - ", Pad(name, LevelWidth), " - ", text);
  }

  /** The default format gives `[time] token - level - text`, the level
      eight wide; whatever the text contains (a `$time`, a `$level`) is
      copied, not expanded, because substitution is a single pass. */
  lemma DefaultLine(text: string, level: nat, time: string, token: string)
    requires level < |Levels|
    ensures FormatLine(DefaultFormat, text, LevelName(level), time, token)
      == "[" + time + "] " + token + " - " + PaddedLevels[level] + " - " + text
  {
    DefaultRender();
    DefaultWellFormed();
    DefaultExpand(text, LevelName(level), time, token);
    FormatOfPieces(DefaultPieces, text, LevelName(level), time, token);
    LevelPadding(level);
  }

  /** strtr at a key `$id` that heads a longer identifier, when no key
      extends `$id`: the key is replaced and the rest of the identifier is
      copied. */
  lemma PrefixSegment(id: string, suffix: string, b: string, t: map<string, string>)
    requires PlaceholderKeys(t)
    requires "$" + id in t
    requires forall k :: k in t && k != [] && id <= k[1..] ==> k[1..] == id
    requires IsWord(suffix)
    ensures Strtr("$" + id + (suffix + b), t) == t["$" + id] + suffix + Strtr(b, t)
  {
    var k := "$" + id;
    var rest := suffix + b;
    NoLongerKey(id, rest, t);
    KeyAtHead(k, rest, t);
    WordSegment(suffix, b, t);
    assert t[k] + (suffix + Strtr(b, t)) == t[k] + suffix + Strtr(b, t);
  }

  /** No key of `t` is a longer prefix of `$id` followed by `rest`. */
  lemma NoLongerKey(id: string, rest: string, t: map<string, string>)
    requires forall k :: k in t && k != [] && id <= k[1..] ==> k[1..] == id
    ensures forall m :: |"$" + id| < m <= |"$" + id + rest| ==> ("$" + id + rest)[..m] !in t
  {
    var k := "$" + id;
    forall m | |k| < m <= |k + rest|
      ensures (k + rest)[..m] !in t
    {
      var p := (k + rest)[..m];
      assert p[1..][..|id|] == id;
    }
  }

  /** The same, anywhere in the subject. */
  lemma PrefixInside(a: string, id: string, suffix: string, b: string, t: map<string, string>)
    requires PlaceholderKeys(t)
    requires "$" + id in t
    requires forall k :: k in t && k != [] && id <= k[1..] ==> k[1..] == id
    requires IsWord(suffix)
    ensures Strtr(a + "$" + id + (suffix + b), t) == Strtr(a, t) + t["$" + id] + suffix + Strtr(b, t)
  {
    var rest := suffix + b;
    CutAtDollar(a, id, rest);
    NoKeyAcrossNonWord(a + "$" + id + rest, |a|, t);
    Split(a, "$" + id + rest, t);
    PrefixSegment(id, suffix, b, t);
    Regroup(Strtr(a, t), t["$" + id], suffix, Strtr(b, t));
  }

  lemma Regroup(w: string, x: string, y: string, z: string)
    ensures w + (x + y + z) == w + x + y + z
  {
  }

  /** No provided name is a proper prefix of another. */
  lemma ProvidedPrefixFree(id: string, x: string)
    requires Provided(id) && Provided(x) && id <= x
    ensures x == id
  {
    assert x[..|id|] == id;
    assert x[1] == id[1] && x[2] == id[2];
    assert |x| == |id| ==> x[..|id|] == x;
  }

  /** `\w+` is greedy, so `$texts` or `$levels` is scanned as one identifier
      (`texts`, `levels`) that has no provider; strtr nevertheless replaces
      its `$text` or `$level` head, since both are always in the table, and
      copies the rest of the identifier after the value. For `$level` the
      value is padded only if a bare `$level` also occurs in the format. */
  lemma PrefixReplaced(a: string, id: string, suffix: string, b: string,
                       text: string, name: string, time: string, token: string)
    requires id == "text" || id == "level"
    requires suffix != [] && IsWord(suffix)
    requires b == [] || !IsWordChar(b[0])
    ensures var f := a + "$" + id + (suffix + b);
      var ids := Placeholders(f);
      var t := Table(text, name, ids, time, token);
      FormatLine(f, text, name, time, token)
        == Strtr(a, t) + (if id == "text" then text else LevelField(name, ids)) + suffix + Strtr(b, t)
  {
    var rest := suffix + b;
    var f := a + "$" + id + rest;
    var ids := Placeholders(f);
    var t := Table(text, name, ids, time, token);
    TableContents(ids, text, name, time, token);
    FactsShape(t, ids, text, name, time, token);
    forall k | k in t && k != [] && id <= k[1..]
      ensures k[1..] == id
    {
      ProvidedPrefixFree(id, k[1..]);
    }
    PrefixInside(a, id, suffix, b, t);
  }

  /** `time` and `token` are each a prefix of no other provided name's word. */
  lemma OptionalHeadFree(x: string, id: string, w: string)
    requires Provided(x) && x != id
    requires id == "time" || id == "token"
    ensures !(x <= id + w)
  {
    assert (id + w)[0] == id[0] && (id + w)[1] == id[1];
  }

  /** `$timestamp` or `$tokens` is scanned as one identifier without a
      provider. When the format also holds a bare `$time` (or `$token`),
      the table has that key and strtr replaces the head of the longer
      identifier, copying the rest after the value; otherwise the table has
      no such key and the whole identifier is copied verbatim. */
  lemma PrefixOptional(a: string, id: string, suffix: string, b: string,
                       text: string, name: string, time: string, token: string)
    requires id == "time" || id == "token"
    requires suffix != [] && IsWord(suffix)
    requires b == [] || !IsWordChar(b[0])
    ensures var f := a + "$" + id + (suffix + b);
      var ids := Placeholders(f);
      var t := Table(text, name, ids, time, token);
      FormatLine(f, text, name, time, token)
        == Strtr(a, t) + (if id in ids then Filled(id, text, name, time, token) else "$" + id) + suffix + Strtr(b, t)
  {
    var f := a + "$" + id + (suffix + b);
    var ids := Placeholders(f);
    var t := Table(text, name, ids, time, token);
    assert FormatLine(f, text, name, time, token) == Strtr(f, t);
    TableContents(ids, text, name, time, token);
    FactsShape(t, ids, text, name, time, token);
    var v := if id in ids then Filled(id, text, name, time, token) else "$" + id;
    if id in ids {
      OptionalPresent(a, id, suffix, b, t, ids, text, name, time, token);
    } else {
      AbsentKeys(t, ids, id, suffix, text, name, time, token);
      ProvidedWord(id);
      OptionalAbsent(a, id, suffix, b, t);
    }
    assert Strtr(f, t) == Strtr(a, t) + v + suffix + Strtr(b, t);
  }

  /** The first case: the table has `$id` and no longer key extends it. */
  lemma OptionalPresent(a: string, id: string, suffix: string, b: string, t: map<string, string>,
                        ids: seq<string>, text: string, name: string, time: string, token: string)
    requires id == "time" || id == "token"
    requires id in ids
    requires TableFacts(t, ids, text, name, time, token) && PlaceholderKeys(t)
    requires IsWord(suffix)
    ensures Strtr(a + "$" + id + (suffix + b), t) == Strtr(a, t) + Filled(id, text, name, time, token) + suffix + Strtr(b, t)
  {
    forall k | k in t && k != [] && id <= k[1..]
      ensures k[1..] == id
    {
      ProvidedPrefixFree(id, k[1..]);
    }
    FilledPair(t, ids, id, text, name, time, token);
    PrefixInside(a, id, suffix, b, t);
  }

  /** The second case: no key of the table is a prefix of the identifier. */
  lemma OptionalAbsent(a: string, id: string, suffix: string, b: string, t: map<string, string>)
    requires PlaceholderKeys(t)
    requires forall k :: k in t && k != [] ==> !(k[1..] <= id + suffix)
    requires id != [] && IsWord(id) && IsWord(suffix)
    requires b == [] || !IsWordChar(b[0])
    ensures Strtr(a + "$" + id + (suffix + b), t) == Strtr(a, t) + ("$" + id) + suffix + Strtr(b, t)
  {
    var w := id + suffix;
    WordConcat(id, suffix);
    UnknownInside(a, w, b, t);
    Regroup4(a, id, suffix, b);
    Regroup4(Strtr(a, t), id, suffix, Strtr(b, t));
  }

  lemma AbsentKeys(t: map<string, string>, ids: seq<string>, id: string, suffix: string,
                   text: string, name: string, time: string, token: string)
    requires id == "time" || id == "token"
    requires id !in ids
    requires TableFacts(t, ids, text, name, time, token)
    ensures forall k :: k in t && k != [] ==> !(k[1..] <= id + suffix)
  {
    forall k | k in t && k != []
      ensures !(k[1..] <= id + suffix)
    {
      assert k == "$" + k[1..];
      OptionalHeadFree(k[1..], id, suffix);
    }
  }

  lemma WordConcat(x: string, y: string)
    requires IsWord(x) && IsWord(y)
    ensures IsWord(x + y)
  {
    assert forall i :: 0 <= i < |x| ==> (x + y)[i] == x[i];
    assert forall i :: |x| <= i < |x + y| ==> (x + y)[i] == y[i - |x|];
  }

  lemma Regroup4(a: string, id: string, suffix: string, b: string)
    ensures a + "$" + id + (suffix + b) == a + "$" + (id + suffix) + b
    ensures a + "$" + (id + suffix) + b == a + ("$" + id) + suffix + b
  {
  }
}
