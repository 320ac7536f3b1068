/** The `/` escape of mcp/scripts/pharos/config/utils/generate_config.py.

    YAML text is loaded with every `/` replaced by a token, templates are rendered from the
    loaded values, and the token is turned back into `/` in the rendered output. The token
    begins and ends with the same two characters, so an occurrence can straddle the border
    between literal text and a real token. */
module SlashEscape {
  import opened Common


  const TOKEN := "__slash__"

  /** `text.replace('/', TOKEN)` */
  function Escape(text: string): string {
    if text == "" then ""
    else (if text[0] == '/' then TOKEN else [text[0]]) + Escape(text[1..])
  }

  /** `text.replace(TOKEN, '/')`: leftmost, non-overlapping. */
  function Unescape(text: string): string {
    if text == "" then ""
    else if TOKEN <= text then "/" + Unescape(text[|TOKEN|..])
    else [text[0]] + Unescape(text[1..])
  }

  /** A rendered document interleaves template text with values loaded from YAML. */
  datatype Piece = Template(text: string) | FromYaml(text: string)

  /** What the template engine emits: values still carry the escape. */
  function Rendered(pieces: seq<Piece>): string {
    if pieces == [] then ""
    else (match pieces[0] case Template(t) => t case FromYaml(t) => Escape(t)) + Rendered(pieces[1..])
  }

  /** What the document is meant to say. */
  function Intended(pieces: seq<Piece>): string {
    if pieces == [] then "" else pieces[0].text + Intended(pieces[1..])
  }

  /** One character of a document, and whether it is a `/` that travels as a token. */
  datatype Symbol = Plain(c: char) | Slash

  function Symbols(pieces: seq<Piece>): seq<Symbol> {
    if pieces == [] then []
    else (match pieces[0] case Template(t) => Literals(t) case FromYaml(t) => Loaded(t)) + Symbols(pieces[1..])
  }

  function Literals(text: string): seq<Symbol> {
    if text == "" then [] else [Plain(text[0])] + Literals(text[1..])
  }

  function Loaded(text: string): seq<Symbol> {
    if text == "" then []
    else [if text[0] == '/' then Slash else Plain(text[0])] + Loaded(text[1..])
  }

  function Glyph(s: Symbol): string {
    match s case Plain(c) => [c] case Slash => TOKEN
  }

  function Wire(doc: seq<Symbol>): string {
    if doc == [] then "" else Glyph(doc[0]) + Wire(doc[1..])
  }

  function Text(doc: seq<Symbol>): string {
    if doc == [] then ""
    else [match doc[0] case Plain(c) => c case Slash => '/'] + Text(doc[1..])
  }

  /** The first `k` characters of the token, as literal text; `Spelled(7)` is `__slash`. */
  function Spelled(k: nat): seq<Symbol>
    requires k <= 7
  {
    seq(k, i requires 0 <= i < k => Plain(TOKEN[i]))
  }

  /** Literal text spells the token so far that the characters after it complete it:
      either literally, or by running into the leading `__` of a real token. */
  predicate Collides(doc: seq<Symbol>) {
    && Spelled(7) <= doc
    && var rest := doc[7..];
    || [Slash] <= rest
    || [Plain('_'), Slash] <= rest
    || [Plain('_'), Plain('_')] <= rest
  }

  ghost predicate Collision(doc: seq<Symbol>) {
    exists i :: 0 <= i <= |doc| && Collides(doc[i..])
  }

  // ----- composition -----

  lemma {:induction false} WireConcat(a: seq<Symbol>, b: seq<Symbol>)
    ensures Wire(a + b) == Wire(a) + Wire(b)
  {
    if a == [] {
      assert a + b == b;
    } else {
      assert (a + b)[1..] == a[1..] + b && (a + b)[0] == a[0];
      WireConcat(a[1..], b);
      Associative(Glyph(a[0]), Wire(a[1..]), Wire(b));
    }
  }

  lemma {:induction false} TextConcat(a: seq<Symbol>, b: seq<Symbol>)
    ensures Text(a + b) == Text(a) + Text(b)
  {
    if a == [] {
      assert a + b == b;
    } else {
      TextConcat(a[1..], b);
      assert (a + b)[1..] == a[1..] + b;
    }
  }

  lemma {:induction false} LiteralWire(t: string)
    ensures Wire(Literals(t)) == t && Text(Literals(t)) == t
  {
    if t != "" { LiteralWire(t[1..]); }
  }

  lemma {:induction false} LoadedWire(t: string)
    ensures Wire(Loaded(t)) == Escape(t) && Text(Loaded(t)) == t
  {
    if t != "" { LoadedWire(t[1..]); }
  }

  lemma {:induction false} SymbolsDescribe(pieces: seq<Piece>)
    ensures Wire(Symbols(pieces)) == Rendered(pieces)
    ensures Text(Symbols(pieces)) == Intended(pieces)
  {
    if pieces != [] {
      var t, rest := pieces[0].text, Symbols(pieces[1..]);
      var head := if pieces[0].Template? then Literals(t) else Loaded(t);
      LiteralWire(t);
      LoadedWire(t);
      WireConcat(head, rest);
      TextConcat(head, rest);
      SymbolsDescribe(pieces[1..]);
    }
  }

  // ----- where the token can be found on the wire -----

  /** Matching a non-empty pattern against the wire consumes one symbol at a time. */
  lemma MatchOneSymbol(p: string, doc: seq<Symbol>)
    requires p != ""
    ensures p <= Wire(doc) <==>
      && doc != []
      && match doc[0]
         case Plain(c) => c == p[0] && p[1..] <= Wire(doc[1..])
         case Slash => p <= TOKEN + Wire(doc[1..])
  {
    if doc != [] && doc[0].Plain? {
      assert Wire(doc) == [doc[0].c] + Wire(doc[1..]);
      assert Wire(doc)[1..] == Wire(doc[1..]);
      if p <= Wire(doc) {
        assert p[1..] == Wire(doc)[1..][..|p| - 1];
      }
      if p[0] == Wire(doc)[0] && p[1..] <= Wire(doc)[1..] {
        assert p == [p[0]] + p[1..];
      }
    }
  }

  /** The proper suffixes of the token that a real token can complete are `__` and `_`. */
  lemma SuffixMeetsToken(k: nat, rest: string)
    requires 0 < k < |TOKEN|
    ensures TOKEN[k..] <= TOKEN + rest <==> k >= 7
  {
    var p, w := TOKEN[k..], TOKEN + rest;
    assert p[0] == TOKEN[k] && w[0] == '_';
    if k == 1 {
      assert p[1] == 's' && w[1] == '_';
    }
    if k == 7 {
      assert p == w[..2];
    }
    if k == 8 {
      assert p == w[..1];
    }
  }

  /** With the first `k` characters of the token matched by plain symbols, what may follow. */
  lemma MatchFrom(k: nat, doc: seq<Symbol>)
    requires 0 < k < |TOKEN|
    ensures TOKEN[k..] <= Wire(doc) <==>
      && doc != []
      && match doc[0]
         case Plain(c) => c == TOKEN[k] && TOKEN[k + 1..] <= Wire(doc[1..])
         case Slash => k >= 7
  {
    MatchOneSymbol(TOKEN[k..], doc);
    assert TOKEN[k..][1..] == TOKEN[k + 1..];
    if doc != [] && doc[0] == Slash {
      SuffixMeetsToken(k, Wire(doc[1..]));
    }
  }

  /** Up to `__slash`, only plain symbols can have been matched. */
  lemma {:induction false} MatchSpelled(k: nat, doc: seq<Symbol>)
    requires doc != [] && doc[0] != Slash && 1 <= k <= 7
    ensures TOKEN <= Wire(doc) <==> Spelled(k) <= doc && TOKEN[k..] <= Wire(doc[k..])
  {
    if k == 1 {
      MatchOneSymbol(TOKEN, doc);
      assert Spelled(1) == [Plain('_')];
    } else {
      MatchSpelled(k - 1, doc);
      SpelledNext(k, doc);
      if Spelled(k - 1) <= doc {
        MatchFrom(k - 1, doc[k - 1..]);
        if doc[k - 1..] != [] {
          assert doc[k - 1..][0] == doc[k - 1] && doc[k - 1..][1..] == doc[k..];
        }
      }
    }
  }

  lemma SpelledNext(k: nat, doc: seq<Symbol>)
    requires 1 < k <= 7
    ensures Spelled(k) <= doc <==> Spelled(k - 1) <= doc && |doc| >= k && doc[k - 1] == Plain(TOKEN[k - 1])
  {
    assert Spelled(k) == Spelled(k - 1) + [Plain(TOKEN[k - 1])];
    if Spelled(k - 1) <= doc && |doc| >= k && doc[k - 1] == Plain(TOKEN[k - 1]) {
      assert Spelled(k) == doc[..k - 1] + [doc[k - 1]] == doc[..k];
    }
    if Spelled(k) <= doc {
      assert Spelled(k)[k - 1] == doc[k - 1];
      assert Spelled(k - 1) == doc[..k - 1];
    }
  }

  /** At a plain symbol, the unescape finds a token exactly when there is a collision. */
  lemma TokenAtPlain(doc: seq<Symbol>)
    requires doc != [] && doc[0] != Slash
    ensures TOKEN <= Wire(doc) <==> Collides(doc)
  {
    MatchSpelled(7, doc);
    if Spelled(7) <= doc {
      var rest := doc[7..];
      MatchFrom(7, rest);
      if rest != [] && rest[0].Plain? {
        MatchFrom(8, rest[1..]);
        assert TOKEN[9..] == "";
      }
    }
  }

  // ----- main results -----

  /** The rendered document reads as intended if and only if no literal text collides with
      the token; one collision anywhere already changes the output. */
  lemma {:induction false} UnescapeWire(doc: seq<Symbol>)
    ensures Unescape(Wire(doc)) == Text(doc) <==> !Collision(doc)
  {
    if doc == [] {
      assert !Collides(doc[0..]);
      assert !Collision(doc);
    } else {
      UnescapeWire(doc[1..]);
      assert Collision(doc) <==> Collides(doc) || Collision(doc[1..]) by {
        assert doc[0..] == doc;
        forall i | 0 <= i <= |doc[1..]| ensures doc[1..][i..] == doc[i + 1..] {}
        if i :| 0 <= i <= |doc| && Collides(doc[i..]) {
          if i > 0 { assert doc[1..][i - 1..] == doc[i..]; }
        }
        if i :| 0 <= i <= |doc[1..]| && Collides(doc[1..][i..]) {
          assert Collides(doc[i + 1..]);
        }
      }
      if doc[0] == Slash {
        assert TOKEN <= Wire(doc) && Wire(doc)[|TOKEN|..] == Wire(doc[1..]);
        assert Unescape(Wire(doc))[1..] == Unescape(Wire(doc[1..]));
        assert Text(doc)[1..] == Text(doc[1..]);
        assert !Collides(doc)  by { assert Spelled(7)[0] == Plain('_'); }
      } else {
        TokenAtPlain(doc);
        assert Wire(doc)[1..] == Wire(doc[1..]);
        assert Text(doc)[1..] == Text(doc[1..]);
        if Collides(doc) {
          assert Unescape(Wire(doc))[0] == '/';
          assert doc[0] == Plain('_') by { assert Spelled(7)[0] == doc[0]; }
        }
      }
    }
  }

  /** Whole pipeline: load, render, unescape. */
  lemma RenderingIsFaithful(pieces: seq<Piece>)
    ensures Unescape(Rendered(pieces)) == Intended(pieces) <==> !Collision(Symbols(pieces))
  {
    SymbolsDescribe(pieces);
    UnescapeWire(Symbols(pieces));
  }

  lemma NoStemNoCollision(text: string)
    requires forall i :: 0 <= i <= |text| ==> !("__slash" <= text[i..])
    ensures !Collision(Loaded(text)) && !Collision(Literals(text))
  {
    LoadedAt(text, 0);
    forall i | 0 <= i <= |text|
      ensures !Collides(Loaded(text)[i..]) && !Collides(Literals(text)[i..])
    {
      LoadedAt(text, i);
      StemIsLiteral(text[i..]);
    }
  }

  /** A single text survives the escape and its inverse whenever it is free of the stem
      `__slash`; template text without the stem is left alone. */
  lemma RoundTrip(text: string)
    requires forall i :: 0 <= i <= |text| ==> !("__slash" <= text[i..])
    ensures Unescape(Escape(text)) == text
    ensures Unescape(text) == text
  {
    LoadedWire(text);
    LiteralWire(text);
    NoStemNoCollision(text);
    UnescapeWire(Loaded(text));
    UnescapeWire(Literals(text));
  }

  lemma {:induction false} LoadedAt(text: string, i: nat)
    requires i <= |text|
    ensures |Loaded(text)| == |Literals(text)| == |text|
    ensures Loaded(text)[i..] == Loaded(text[i..]) && Literals(text)[i..] == Literals(text[i..])
  {
    if text != "" {
      LoadedAt(text[1..], if i == 0 then 0 else i - 1);
      if i > 0 {
        assert text[1..][i - 1..] == text[i..];
        assert Loaded(text)[i..] == Loaded(text)[1..][i - 1..];
        assert Literals(text)[i..] == Literals(text)[1..][i - 1..];
      } else {
        assert text[0..] == text;
      }
    }
  }

  lemma SymbolAt(text: string)
    ensures |Loaded(text)| == |Literals(text)| == |text|
    ensures forall i :: 0 <= i < |text| ==> Loaded(text)[i] == if text[i] == '/' then Slash else Plain(text[i])
    ensures forall i :: 0 <= i < |text| ==> Literals(text)[i] == Plain(text[i])
  {
    LoadedAt(text, 0);
    forall i | 0 <= i < |text|
      ensures Loaded(text)[i] == if text[i] == '/' then Slash else Plain(text[i])
      ensures Literals(text)[i] == Plain(text[i])
    {
      LoadedAt(text, i);
      assert Loaded(text)[i..][0] == Loaded(text)[i];
      assert Literals(text)[i..][0] == Literals(text)[i];
    }
  }

  lemma StemIsLiteral(text: string)
    ensures Spelled(7) <= Loaded(text) ==> "__slash" <= text
    ensures Spelled(7) <= Literals(text) ==> "__slash" <= text
  {
    SymbolAt(text);
    if Spelled(7) <= Loaded(text) || Spelled(7) <= Literals(text) {
      forall i | 0 <= i < 7 ensures text[i] == TOKEN[i] {
        assert Spelled(7)[i] == Plain(TOKEN[i]);
      }
      assert text[..7] == "__slash";
    }
  }

  /** A text without the token in it that is still damaged: the token straddles its end. */
  lemma StraddlingToken()
    ensures Unescape(Escape("__slash/")) != "__slash/"
  {
    var t := "__slash/";
    SymbolAt(t);
    assert Loaded(t)[..7] == Spelled(7);
    assert [Slash] <= Loaded(t)[7..];
    assert Collides(Loaded(t)[0..]);
    LoadedWire(t);
    UnescapeWire(Loaded(t));
  }
}
