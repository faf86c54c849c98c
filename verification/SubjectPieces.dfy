/**
 The exact condition, on a subject format alone, under which two-pass rendering is template
 substitution for all originals and all senders without a percent sign.
 */
module SubjectPieces {
  import opened Mails
  import opened Subject

  /** The text after the last percent sign of a piece, unless that sign ends an `%original%`. */
  function Open(p: string): Option<string>
    decreases |p|
  {
    if p == "" then None
    else if ORIGINAL <= p then Open(p[10..])
    else match Open(p[1..])
      case Some(x) => Some(x)
      case None => if p[0] == '%' && '%' !in p[1..] then Some(p[1..]) else None
  }

  /** What follows a piece turns its open end into an `%original%`. */
  predicate Completes(p: string, q: string) {
    Open(p).Some? && ORIGINAL <= "%" + (Open(p).value + q)
  }

  /** The sender `ORIGINAL[1 + |x|..1 + k]` makes an `%original%` out of a piece's open end `x` and the pieces after it. */
  predicate BridgedAt(p: string, ps: seq<string>, k: nat)
    requires ps != []
  {
    && Open(p).Some? && |Open(p).value| <= k <= 8
    && var sender := ORIGINAL[1 + |Open(p).value|..1 + k];
       Completes(p, sender + Join(ps, sender))
  }

  /** Some stretch of the word `original` is such a sender. */
  predicate Bridged(p: string, ps: seq<string>)
    requires ps != []
  {
    exists k: nat :: k <= 8 && BridgedAt(p, ps, k)
  }

  /** No piece before a `%name%` ends in `%original`, whose percent sign the name would share, or can be bridged. */
  predicate Separate(ps: seq<string>)
    requires ps != []
    decreases |ps|
  {
    |ps| == 1 || (Open(ps[0]) != Some(ORIGINAL[1..9]) && !Bridged(ps[0], ps[1..]) && Separate(ps[1..]))
  }

  // ----- scanning a text in two parts -----

  lemma OriginalSigns(i: nat)
    requires i < 10
    ensures |ORIGINAL| == 10 && (ORIGINAL[i] == '%' <==> i == 0 || i == 9)
  {
  }

  lemma {:induction false} OpenPlain(p: string)
    ensures Open(p).Some? ==> '%' !in Open(p).value
    ensures '%' !in p ==> Open(p).None?
    decreases |p|
  {
    if p != "" {
      if ORIGINAL <= p {
        OpenPlain(p[10..]);
        assert p[0] == ORIGINAL[0] && p[0] in p;
      } else {
        OpenPlain(p[1..]);
        assert p[0] in p;
      }
    }
  }

  lemma PrefixOfFirst(p: string, q: string, pat: string)
    requires pat <= p + q
    ensures |p| >= |pat| ==> pat <= p
  {
    if |p| >= |pat| { assert (p + q)[..|pat|] == p[..|pat|]; }
  }

  /** An `%original%` that starts with a text and goes beyond it leaves that text open. */
  lemma PartialOriginal(p: string, q: string)
    requires p != "" && ORIGINAL <= p + q && !(ORIGINAL <= p)
    ensures p[0] == '%' && '%' !in p[1..] && |p| < 10
  {
    PrefixOfFirst(p, q, ORIGINAL);
    forall i: nat | i < |p| ensures p[i] == ORIGINAL[i] && (i > 0 ==> p[i] != '%') {
      assert (p + q)[..10] == ORIGINAL && (p + q)[i] == (p + q)[..10][i];
      OriginalSigns(i);
    }
    forall c | c in p[1..] ensures c != '%' {
      var i :| 0 <= i < |p[1..]| && p[1..][i] == c;
      assert p[i + 1] == c;
    }
  }

  lemma AcrossIsOpen(p: string, q: string)
    requires p != "" && !(ORIGINAL <= p)
    ensures ORIGINAL <= p + q ==> Completes(p, q) && Open(p[1..]).None?
  {
    if ORIGINAL <= p + q {
      PartialOriginal(p, q);
      OpenPlain(p[1..]);
      assert "%" + (p[1..] + q) == p + q;
    }
  }

  lemma ScanLiteral(p: string, q: string)
    requires p != "" && !(ORIGINAL <= p) && !(ORIGINAL <= p + q)
    ensures SecondPass(p) == [Lit(p[0])] + SecondPass(p[1..])
    ensures SecondPass(p + q) == [Lit(p[0])] + SecondPass(p[1..] + q)
  {
    assert (p + q)[1..] == p[1..] + q;
  }

  lemma ScanOriginal(p: string, q: string)
    requires ORIGINAL <= p
    ensures SecondPass(p) == [OriginalToken] + SecondPass(p[10..])
    ensures SecondPass(p + q) == [OriginalToken] + SecondPass(p[10..] + q)
  {
    assert (p + q)[10..] == p[10..] + q && ORIGINAL <= p + q;
  }

  /** Scanning goes part by part unless the second completes the first. */
  lemma {:induction false} ScanParts(p: string, q: string)
    requires !Completes(p, q)
    ensures SecondPass(p + q) == SecondPass(p) + SecondPass(q)
    decreases |p|
  {
    if p == "" {
      assert p + q == q;
    } else if ORIGINAL <= p {
      ScanParts(p[10..], q);
      ScanOriginal(p, q);
    } else {
      AcrossIsOpen(p, q);
      ScanParts(p[1..], q);
      ScanLiteral(p, q);
    }
  }

  /** If it does, the scan of the whole shows it. */
  lemma {:induction false} ScanCompleted(p: string, q: string, r: seq<Token>)
    requires Completes(p, q)
    ensures SecondPass(p + q) != SecondPass(p) + r
    decreases |p|
  {
    if ORIGINAL <= p {
      ScanCompleted(p[10..], q, r);
      ScanOriginal(p, q);
      LongerDiffer(OriginalToken, SecondPass(p[10..] + q), SecondPass(p[10..]), r);
    } else if Open(p[1..]).Some? {
      AcrossIsOpen(p, q);
      ScanCompleted(p[1..], q, r);
      ScanLiteral(p, q);
      LongerDiffer(Lit(p[0]), SecondPass(p[1..] + q), SecondPass(p[1..]), r);
    } else {
      assert "%" + (p[1..] + q) == p + q;
      CompletedHere(p, q, r);
    }
  }

  lemma CompletedHere(p: string, q: string, r: seq<Token>)
    requires p != "" && !(ORIGINAL <= p) && ORIGINAL <= p + q
    ensures SecondPass(p + q) != SecondPass(p) + r
  {
    assert SecondPass(p + q)[0] == OriginalToken && SecondPass(p)[0] == Lit(p[0]);
  }

  lemma LongerDiffer(t: Token, whole: seq<Token>, part: seq<Token>, r: seq<Token>)
    requires whole != part + r
    ensures [t] + whole != ([t] + part) + r
  {
    assert ([t] + part) + r == [t] + (part + r);
    SamePrefix([t], whole, part + r);
  }

  // ----- the first pass and the second, piece by piece -----

  /** Pieces read one by one, with the sender between them. */
  function NamedPieces(ps: seq<string>, sender: string): seq<Token>
    requires ps != []
    decreases |ps|
  {
    if |ps| == 1 then SecondPass(ps[0])
    else SecondPass(ps[0]) + (Lits(sender) + NamedPieces(ps[1..], sender))
  }

  predicate Crossing(ps: seq<string>, sender: string)
    requires ps != []
    decreases |ps|
  {
    |ps| > 1 && (Completes(ps[0], sender + Join(ps[1..], sender)) || Crossing(ps[1..], sender))
  }

  lemma {:induction false} JoinedScan(ps: seq<string>, sender: string)
    requires ps != [] && '%' !in sender
    ensures SecondPass(Join(ps, sender)) == NamedPieces(ps, sender) <==> !Crossing(ps, sender)
    decreases |ps|
  {
    if |ps| > 1 {
      var later := Join(ps[1..], sender);
      var q := sender + later;
      if Completes(ps[0], q) {
        ScanCompleted(ps[0], q, Lits(sender) + NamedPieces(ps[1..], sender));
      } else {
        ScanParts(ps[0], q);
        SecondPassSkips(sender, later);
        JoinedScan(ps[1..], sender);
        SamePrefix(Lits(sender), SecondPass(later), NamedPieces(ps[1..], sender));
        SamePrefix(SecondPass(ps[0]), Lits(sender) + SecondPass(later), Lits(sender) + NamedPieces(ps[1..], sender));
      }
    }
  }

  lemma CharWithin(pat: string, w: string, rest: string, i: nat)
    requires pat <= "%" + (w + rest) && i < |w|
    ensures i + 1 < |pat| ==> pat[i + 1] == w[i]
  {
    assert ("%" + (w + rest))[i + 1] == w[i];
    assert pat == ("%" + (w + rest))[..|pat|];
  }

  lemma NinthSign(w: string, rest: string)
    requires ORIGINAL <= "%" + (w + rest)
    ensures |w| > 8 ==> '%' in w
  {
    if |w| > 8 {
      CharWithin(ORIGINAL, w, rest, 8);
      OriginalSigns(9);
    }
  }

  /** A text without percent signs at the front of an `%original%` is shorter than the word. */
  lemma PlainIsShort(w: string, rest: string)
    requires ORIGINAL <= "%" + (w + rest) && '%' !in w
    ensures |w| <= 8 && w == ORIGINAL[1..1 + |w|]
  {
    var whole := "%" + (w + rest);
    NinthSign(w, rest);
    assert whole[1..1 + |w|] == w;
    assert whole[..10][1..1 + |w|] == whole[1..1 + |w|];
  }

  /** A sender that completes a piece is a stretch of the word `original`. */
  lemma BridgingSender(p: string, ps: seq<string>, sender: string)
    requires ps != [] && '%' !in sender && Completes(p, sender + Join(ps, sender))
    ensures Bridged(p, ps)
  {
    var x, rest := Open(p).value, Join(ps, sender);
    OpenPlain(p);
    assert x + (sender + rest) == (x + sender) + rest;
    PlainIsShort(x + sender, rest);
    var k := |x| + |sender|;
    assert sender == (x + sender)[|x|..] == ORIGINAL[1 + |x|..1 + k];
    assert BridgedAt(p, ps, k);
  }

  lemma BridgeIsPlain(p: string, k: nat)
    requires Open(p).Some? && |Open(p).value| <= k <= 8
    ensures '%' !in ORIGINAL[1 + |Open(p).value|..1 + k]
  {
    var s := ORIGINAL[1 + |Open(p).value|..1 + k];
    forall c | c in s ensures c != '%' {
      var i :| 0 <= i < |s| && s[i] == c;
      OriginalSigns(1 + |Open(p).value| + i);
    }
  }

  /** A foreign character completes nothing. */
  lemma {:induction false} HashNeverCrosses(ps: seq<string>)
    requires ps != []
    ensures !Crossing(ps, "#")
    decreases |ps|
  {
    if |ps| > 1 {
      HashNeverCrosses(ps[1..]);
      BridgingHash(ps[0], ps[1..]);
    }
  }

  lemma BridgingHash(p: string, ps: seq<string>)
    requires ps != []
    ensures !Completes(p, "#" + Join(ps, "#"))
  {
    if Completes(p, "#" + Join(ps, "#")) {
      var x := Open(p).value;
      OpenPlain(p);
      assert x + ("#" + Join(ps, "#")) == (x + "#") + Join(ps, "#");
      NinthSign(x + "#", Join(ps, "#"));
      CharWithin(ORIGINAL, x + "#", Join(ps, "#"), |x|);
      assert false;
    }
  }

  // ----- the template's tokens, piece by piece -----

  /** Some piece before a `%name%` ends in an open `%original`. */
  predicate SharesSign(ps: seq<string>)
    requires ps != []
    decreases |ps|
  {
    |ps| > 1 && (Open(ps[0]) == Some(ORIGINAL[1..9]) || SharesSign(ps[1..]))
  }

  lemma {:induction false} FirstPiece(format: string)
    ensures Pieces(format)[0] <= format
    ensures |Pieces(format)| > 1 ==> Pieces(format)[0] + NAME <= format
    decreases |format|
  {
    if format == "" || NAME <= format {
      assert |Pieces(format)| > 1 ==> "" + NAME == NAME;
    } else {
      FirstPiece(format[1..]);
      var q := Pieces(format[1..])[0];
      assert [format[0]] + format[1..] == format;
      assert ([format[0]] + q) + NAME == [format[0]] + (q + NAME);
    }
  }

  lemma PiecesLiteral(format: string)
    requires format != "" && !(NAME <= format)
    ensures var qs := Pieces(format[1..]);
            Pieces(format)[0] == [format[0]] + qs[0] && Pieces(format)[1..] == qs[1..] && |Pieces(format)| == |qs|
  {
  }

  lemma PiecesName(format: string)
    requires NAME <= format
    ensures Pieces(format)[0] == "" && Pieces(format)[1..] == Pieces(format[6..]) && |Pieces(format)| > 1
  {
  }

  lemma OriginalSplits(format: string)
    requires ORIGINAL <= format
    ensures format == "%" + (ORIGINAL[1..9] + format[9..]) && '%' !in ORIGINAL[1..9]
    ensures !(NAME <= format) && format[9..] != "" && format[9] == '%'
  {
    assert format[..10] == ORIGINAL;
    assert format[0] == ORIGINAL[0] && format[1..9] == ORIGINAL[1..9] && format[9] == ORIGINAL[9] && format[1] == ORIGINAL[1];
    assert format == [format[0]] + (format[1..9] + format[9..]);
    assert NAME[1] == 'n' && ORIGINAL[1] == 'o';
  }

  /** What the first piece of a format that begins with `%original%` looks like. */
  lemma PiecesOriginal(format: string)
    requires ORIGINAL <= format
    ensures var qs := Pieces(format[9..]);
            && Pieces(format)[0] == "%" + (ORIGINAL[1..9] + qs[0])
            && Pieces(format)[1..] == qs[1..] && |Pieces(format)| == |qs|
  {
    OriginalSplits(format);
    PiecesLiteral(format);
    assert format[1..] == ORIGINAL[1..9] + format[9..];
    PiecesSkip(ORIGINAL[1..9], format[9..]);
  }

  /** The last sign begins a `%name%`: the first piece ends open there. */
  lemma SharedSign(format: string)
    requires ORIGINAL <= format && NAME <= format[9..]
    ensures |Pieces(format)| > 1 && Open(Pieces(format)[0]) == Some(ORIGINAL[1..9])
    ensures SecondPass(Pieces(format)[0])[..1] == [Lit('%')]
  {
    OriginalSplits(format);
    PiecesOriginal(format);
    PiecesName(format[9..]);
    var p := Pieces(format)[0];
    assert ORIGINAL[1..9] + "" == ORIGINAL[1..9];
    assert p[1..] == ORIGINAL[1..9] && |p| == 9;
    OpenPlain(p[1..]);
  }

  lemma OriginalRejoined(q: string)
    ensures var p := "%" + (ORIGINAL[1..9] + ("%" + q)); ORIGINAL <= p && p[10..] == q
  {
    assert ORIGINAL == "%" + (ORIGINAL[1..9] + "%");
    assert "%" + (ORIGINAL[1..9] + ("%" + q)) == ORIGINAL + q;
  }

  /** Otherwise the first piece goes on behind the `%original%`. */
  lemma WholeOriginal(format: string)
    requires ORIGINAL <= format && !(NAME <= format[9..])
    ensures var p, q := Pieces(format)[0], Pieces(format[10..])[0];
            && Pieces(format)[1..] == Pieces(format[10..])[1..] && |Pieces(format)| == |Pieces(format[10..])|
            && ORIGINAL <= p && p[10..] == q
  {
    OriginalSplits(format);
    PiecesOriginal(format);
    PiecesLiteral(format[9..]);
    assert format[9..][1..] == format[10..];
    OriginalRejoined(Pieces(format[10..])[0]);
  }

  /** A piece before a name is not `%original`, or the format would begin with `%original%`. */
  lemma NotCutOff(format: string, p: string)
    requires p + NAME <= format && !(ORIGINAL <= format)
    ensures p != "%" + ORIGINAL[1..9]
  {
    var cutOff := "%" + ORIGINAL[1..9];
    assert ORIGINAL <= cutOff + NAME by { assert (cutOff + NAME)[..10] == ORIGINAL; }
    PrefixTransitive(ORIGINAL, p + NAME, format);
  }

  lemma OpenFront(c: char, q: string)
    requires !(ORIGINAL <= [c] + q) && [c] + q != "%" + ORIGINAL[1..9]
    ensures Open([c] + q) == Some(ORIGINAL[1..9]) <==> Open(q) == Some(ORIGINAL[1..9])
  {
    var p := [c] + q;
    assert p[1..] == q && p[0] == c;
  }

  /** A literal in front of a piece changes neither how it ends nor how the rest is read. */
  lemma LiteralPiece(format: string)
    requires format != "" && !(NAME <= format) && !(ORIGINAL <= format)
    ensures var p, q := Pieces(format)[0], Pieces(format[1..])[0];
            && SecondPass(p) == [Lit(format[0])] + SecondPass(q)
            && (|Pieces(format)| > 1 ==> (Open(p) == Some(ORIGINAL[1..9]) <==> Open(q) == Some(ORIGINAL[1..9])))
  {
    PiecesLiteral(format);
    FirstPiece(format);
    var p, q := Pieces(format)[0], Pieces(format[1..])[0];
    PrefixTransitive(ORIGINAL, p, format);
    assert SecondPass(p) == [Lit(format[0])] + SecondPass(q) by { assert p[1..] == q && p[0] == format[0]; }
    if |Pieces(format)| > 1 {
      NotCutOff(format, p);
      OpenFront(format[0], q);
    }
  }

  lemma PrefixTransitive(a: string, b: string, d: string)
    requires b <= d
    ensures a <= b ==> a <= d
  {
  }

  /** The template reads a format piece by piece exactly when no piece shares its last sign with a name. */
  lemma {:induction false} TemplateByPieces(format: string, sender: string)
    ensures Named(Tokens(format), sender) == NamedPieces(Pieces(format), sender) <==> !SharesSign(Pieces(format))
    decreases |format|
  {
    var ps := Pieces(format);
    if format == "" {
    } else if NAME <= format {
      PiecesName(format);
      TemplateByPieces(format[6..], sender);
      NamedFront(format, format[6..], NameToken, sender);
      assert NamedPieces(ps, sender) == Lits(sender) + NamedPieces(ps[1..], sender);
      SamePrefix(Lits(sender), Named(Tokens(format[6..]), sender), NamedPieces(ps[1..], sender));
    } else if ORIGINAL <= format && NAME <= format[9..] {
      SharedSign(format);
      NamedFront(format, format[10..], OriginalToken, sender);
      assert NamedPieces(ps, sender)[0] == Lit('%');
    } else if ORIGINAL <= format {
      WholeOriginal(format);
      TemplateByPieces(format[10..], sender);
      NamedFront(format, format[10..], OriginalToken, sender);
      FrontOfPieces(ps, Pieces(format[10..]), OriginalToken, sender);
      SamePrefix([OriginalToken], Named(Tokens(format[10..]), sender), NamedPieces(Pieces(format[10..]), sender));
    } else {
      PiecesLiteral(format);
      LiteralPiece(format);
      TemplateByPieces(format[1..], sender);
      NamedFront(format, format[1..], Lit(format[0]), sender);
      FrontOfPieces(ps, Pieces(format[1..]), Lit(format[0]), sender);
      SamePrefix([Lit(format[0])], Named(Tokens(format[1..]), sender), NamedPieces(Pieces(format[1..]), sender));
    }
  }

  lemma NamedFront(format: string, rest: string, t: Token, sender: string)
    requires Tokens(format) == [t] + Tokens(rest)
    ensures Named(Tokens(format), sender) ==
            (if t.NameToken? then Lits(sender) else [t]) + Named(Tokens(rest), sender)
  {
    assert Tokens(format)[1..] == Tokens(rest);
  }

  lemma FrontOfPieces(ps: seq<string>, qs: seq<string>, t: Token, sender: string)
    requires ps != [] && qs != [] && |ps| == |qs| && ps[1..] == qs[1..]
    requires SecondPass(ps[0]) == [t] + SecondPass(qs[0])
    ensures NamedPieces(ps, sender) == [t] + NamedPieces(qs, sender)
  {
  }

  // ----- the condition -----

  lemma {:induction false} SeparateParts(ps: seq<string>)
    requires ps != []
    ensures Separate(ps) ==> !SharesSign(ps) && forall sender :: '%' !in sender ==> !Crossing(ps, sender)
    decreases |ps|
  {
    if |ps| > 1 && Separate(ps) {
      SeparateParts(ps[1..]);
      forall sender | '%' !in sender ensures !Crossing(ps, sender) {
        if Completes(ps[0], sender + Join(ps[1..], sender)) { BridgingSender(ps[0], ps[1..], sender); }
      }
    }
  }

  lemma {:induction false} NotSeparate(ps: seq<string>) returns (sender: string)
    requires ps != [] && !Separate(ps) && !SharesSign(ps)
    ensures '%' !in sender && Crossing(ps, sender)
    decreases |ps|
  {
    if Bridged(ps[0], ps[1..]) {
      var k: nat :| k <= 8 && BridgedAt(ps[0], ps[1..], k);
      sender := ORIGINAL[1 + |Open(ps[0]).value|..1 + k];
      BridgeIsPlain(ps[0], k);
    } else {
      sender := NotSeparate(ps[1..]);
    }
  }

  lemma ReadIffPieces(format: string, sender: string)
    requires '%' !in sender
    ensures var ps := Pieces(format);
            && (!SharesSign(ps) ==> (ReadAsTemplate(format, sender) <==> !Crossing(ps, sender)))
            && (SharesSign(ps) && !Crossing(ps, sender) ==> !ReadAsTemplate(format, sender))
  {
    FirstPassJoins(format, sender);
    JoinedScan(Pieces(format), sender);
    TemplateByPieces(format, sender);
  }

  /**
   Two passes are the template, for all originals and all senders without a percent sign,
   exactly when the pieces of the format between its `%name%` occurrences are separate.
   */
  lemma TwoPassesIffSeparate(format: string)
    ensures (forall sender, original :: '%' !in sender ==>
               Fill(format, sender, original) == Expand(Tokens(format), sender, original))
            <==> Separate(Pieces(format))
  {
    var ps := Pieces(format);
    if Separate(ps) {
      SeparateParts(ps);
      forall sender, original | '%' !in sender
        ensures Fill(format, sender, original) == Expand(Tokens(format), sender, original)
      {
        ReadIffPieces(format, sender);
        TwoPassesIff(format, sender);
      }
    } else {
      var sender := "#";
      if SharesSign(ps) {
        HashNeverCrosses(ps);
      } else {
        sender := NotSeparate(ps);
      }
      ReadIffPieces(format, sender);
      TwoPassesIff(format, sender);
      var original :| Fill(format, sender, original) != Expand(Tokens(format), sender, original);
      assert !(Fill(format, sender, original) == Expand(Tokens(format), sender, original));
    }
  }

  /** The condition on the format given before is a special case. */
  lemma CleanIsSeparate(format: string)
    requires Clean(format)
    ensures Separate(Pieces(format))
  {
    forall sender, original | '%' !in sender
      ensures Fill(format, sender, original) == Expand(Tokens(format), sender, original)
    {
      CleanReadsAsTemplate(format, sender);
      TwoPassesIff(format, sender);
    }
    TwoPassesIffSeparate(format);
  }
}
