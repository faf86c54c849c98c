/**
 Subject labelling. A format is filled in by two replacement passes, first `%name%`,
 then `%original%`. When that is the reading of the format as a template, and when the
 original subject is sure to survive.
 */
module Subject {
  import opened Mails

  const NAME := "%name%"
  const ORIGINAL := "%original%"

  datatype SubjectConfig = SubjectConfig(format: string, senders: map<string, string>)

  /** A per-sender format wins over the global one. */
  function FormatFor(c: SubjectConfig, sender: string): string {
    if sender in c.senders then c.senders[sender] else c.format
  }

  /** `str::replace`: leftmost, non-overlapping, the inserted text not looked at again. */
  function Replace(s: string, pat: string, with: string): string
    requires pat != ""
    decreases |s|
  {
    if s == "" then ""
    else if pat <= s then with + Replace(s[|pat|..], pat, with)
    else [s[0]] + Replace(s[1..], pat, with)
  }

  /** The two passes, on a format. */
  function Fill(format: string, sender: string, original: string): string {
    Replace(Replace(format, NAME, sender), ORIGINAL, original)
  }

  function Render(c: SubjectConfig, sender: string, original: string): string {
    Fill(FormatFor(c, sender), sender, original)
  }

  predicate OccursAt(s: string, pat: string, i: nat) { i <= |s| && pat <= s[i..] }

  /** `str::contains`. */
  predicate Contains(s: string, pat: string) { exists i: nat :: i <= |s| && OccursAt(s, pat, i) }

  /** The subject checks of `Config::validate`: the global format, then each override in key order. */
  method ValidateFormats(c: SubjectConfig, keys: seq<string>) returns (r: Result<()>)
    requires forall k :: k in c.senders <==> k in keys
    ensures r.Ok? <==> Contains(c.format, ORIGINAL) && forall k :: k in c.senders ==> Contains(c.senders[k], ORIGINAL)
    ensures r.Ok? ==> forall sender ::
      if sender in c.senders then Contains(c.senders[sender], ORIGINAL) else Contains(c.format, ORIGINAL)
  {
    if !Contains(c.format, ORIGINAL) {
      return Err(InvalidMail("subject.format must contain %original%"));
    }
    for i := 0 to |keys|
      invariant forall j :: 0 <= j < i ==> Contains(c.senders[keys[j]], ORIGINAL)
    {
      if !Contains(c.senders[keys[i]], ORIGINAL) {
        return Err(InvalidMail("subject.senders.\"" + keys[i] + "\".format must contain %original%"));
      }
    }
    r := Ok(());
  }

  // ----- the template reading -----

  datatype Token = Lit(c: char) | NameToken | OriginalToken

  /** One pass from the left. */
  function Tokens(format: string): seq<Token>
    decreases |format|
  {
    if format == "" then []
    else if NAME <= format then [NameToken] + Tokens(format[6..])
    else if ORIGINAL <= format then [OriginalToken] + Tokens(format[10..])
    else [Lit(format[0])] + Tokens(format[1..])
  }

  function Expand(ts: seq<Token>, sender: string, original: string): string {
    if ts == [] then ""
    else
      (match ts[0] case Lit(c) => [c] case NameToken => sender case OriginalToken => original)
      + Expand(ts[1..], sender, original)
  }

  function Lits(s: string): seq<Token> { seq(|s|, i requires 0 <= i < |s| => Lit(s[i])) }

  /** The tokens with the sender written out. */
  function Named(ts: seq<Token>, sender: string): seq<Token> {
    if ts == [] then []
    else (if ts[0].NameToken? then Lits(sender) else [ts[0]]) + Named(ts[1..], sender)
  }

  /** What the second pass sees in a text. */
  function SecondPass(s: string): seq<Token>
    decreases |s|
  {
    if s == "" then []
    else if ORIGINAL <= s then [OriginalToken] + SecondPass(s[10..])
    else [Lit(s[0])] + SecondPass(s[1..])
  }

  /** Once the sender is in place, the second pass finds the template's `%original%` tokens and no others. */
  predicate ReadAsTemplate(format: string, sender: string) {
    SecondPass(Replace(format, NAME, sender)) == Named(Tokens(format), sender)
  }

  lemma {:induction false} SecondPassExpands(s: string, original: string)
    ensures Replace(s, ORIGINAL, original) == Expand(SecondPass(s), "", original)
    decreases |s|
  {
    if s == "" {
    } else if ORIGINAL <= s {
      SecondPassExpands(s[10..], original);
      assert ([OriginalToken] + SecondPass(s[10..]))[1..] == SecondPass(s[10..]);
    } else {
      SecondPassExpands(s[1..], original);
      assert ([Lit(s[0])] + SecondPass(s[1..]))[1..] == SecondPass(s[1..]);
    }
  }

  lemma {:induction false} ExpandAppend(a: seq<Token>, b: seq<Token>, sender: string, original: string)
    ensures Expand(a + b, sender, original) == Expand(a, sender, original) + Expand(b, sender, original)
  {
    if a == [] {
      assert a + b == b;
    } else {
      assert (a + b)[1..] == a[1..] + b && (a + b)[0] == a[0];
      ExpandAppend(a[1..], b, sender, original);
    }
  }

  lemma {:induction false} ExpandLits(s: string, sender: string, original: string)
    ensures Expand(Lits(s), sender, original) == s
  {
    if s != "" {
      assert Lits(s)[1..] == Lits(s[1..]);
      ExpandLits(s[1..], sender, original);
      assert s == [s[0]] + s[1..];
    }
  }

  lemma {:induction false} NamedExpands(ts: seq<Token>, sender: string, original: string)
    ensures Expand(Named(ts, sender), "", original) == Expand(ts, sender, original)
  {
    if ts != [] {
      var head := if ts[0].NameToken? then Lits(sender) else [ts[0]];
      ExpandAppend(head, Named(ts[1..], sender), "", original);
      NamedExpands(ts[1..], sender, original);
      ExpandLits(sender, "", original);
      assert [ts[0]][1..] == [];
    }
  }

  ghost predicate NoNames(ts: seq<Token>) { forall i :: 0 <= i < |ts| ==> !ts[i].NameToken? }

  lemma {:induction false} SecondPassNoNames(s: string)
    ensures NoNames(SecondPass(s))
    decreases |s|
  {
    if s != "" {
      if ORIGINAL <= s { SecondPassNoNames(s[10..]); } else { SecondPassNoNames(s[1..]); }
    }
  }

  lemma {:induction false} NamedNoNames(ts: seq<Token>, sender: string)
    ensures NoNames(Named(ts, sender))
  {
    if ts != [] { NamedNoNames(ts[1..], sender); }
  }

  /** Two different token lists are told apart by some original. */
  lemma {:induction false} Distinguish(a: seq<Token>, b: seq<Token>) returns (original: string)
    requires a != b && NoNames(a) && NoNames(b)
    ensures Expand(a, "", original) != Expand(b, "", original)
    decreases |a| + |b|
  {
    if a == [] || b == [] {
      original := "x";
      assert a == [] ==> b[0].Lit? || b[0].OriginalToken?;
    } else if a[0] == b[0] {
      assert a == [a[0]] + a[1..] && b == [b[0]] + b[1..];
      original := Distinguish(a[1..], b[1..]);
      var head := match a[0] case Lit(c) => [c] case _ => original;
      SamePrefix(head, Expand(a[1..], "", original), Expand(b[1..], "", original));
    } else {
      var lit := if a[0].Lit? then a[0].c else b[0].c;
      original := if lit == 'x' then "y" else "x";
      assert Expand(a, "", original)[0] != Expand(b, "", original)[0];
    }
  }

  lemma SamePrefix<T>(p: seq<T>, a: seq<T>, b: seq<T>)
    ensures p + a == p + b <==> a == b
  {
    assert (p + a)[|p|..] == a && (p + b)[|p|..] == b;
  }

  /**
   For a format and a sender, the two passes give the template's meaning for every
   original exactly when the second pass reads the named format as the template does.
   */
  lemma TwoPassesIff(format: string, sender: string)
    ensures (forall original :: Fill(format, sender, original) == Expand(Tokens(format), sender, original))
            <==> ReadAsTemplate(format, sender)
  {
    var a, b := SecondPass(Replace(format, NAME, sender)), Named(Tokens(format), sender);
    forall original ensures Fill(format, sender, original) == Expand(a, "", original)
                    ensures Expand(Tokens(format), sender, original) == Expand(b, "", original)
    {
      SecondPassExpands(Replace(format, NAME, sender), original);
      NamedExpands(Tokens(format), sender, original);
    }
    if a != b {
      SecondPassNoNames(Replace(format, NAME, sender));
      NamedNoNames(Tokens(format), sender);
      var original := Distinguish(a, b);
      assert Fill(format, sender, original) != Expand(Tokens(format), sender, original);
    }
  }

  // ----- a condition on the format alone -----

  /** Every `%` belongs to a token, and no `%original%` shares its last `%` with a `%name%`. */
  predicate Clean(format: string)
    decreases |format|
  {
    || format == ""
    || (NAME <= format && Clean(format[6..]))
    || (ORIGINAL <= format && !("name%" <= format[10..]) && Clean(format[10..]))
    || (format[0] != '%' && Clean(format[1..]))
  }

  lemma {:induction false} SecondPassSkips(p: string, s: string)
    requires '%' !in p
    ensures SecondPass(p + s) == Lits(p) + SecondPass(s)
  {
    if p == "" {
      assert p + s == s && Lits(p) + SecondPass(s) == SecondPass(s);
    } else {
      assert (p + s)[0] == p[0] && (p + s)[1..] == p[1..] + s;
      assert !(ORIGINAL <= p + s) by { assert ORIGINAL[0] == '%' && p[0] in p; }
      SecondPassSkips(p[1..], s);
      assert Lits(p) == [Lit(p[0])] + Lits(p[1..]);
      assert Lits(p) + SecondPass(s) == [Lit(p[0])] + (Lits(p[1..]) + SecondPass(s));
    }
  }

  /** A text free of the pattern's first character is passed over. */
  lemma {:induction false} ReplaceSkips(p: string, s: string, pat: string, with: string)
    requires pat != "" && pat[0] !in p
    ensures Replace(p + s, pat, with) == p + Replace(s, pat, with)
  {
    if p == "" {
      assert p + s == s && p + Replace(s, pat, with) == Replace(s, pat, with);
    } else {
      assert (p + s)[0] == p[0] && (p + s)[1..] == p[1..] + s;
      assert !(pat <= p + s) by { assert p[0] in p; }
      ReplaceSkips(p[1..], s, pat, with);
      assert [p[0]] + (p[1..] + Replace(s, pat, with)) == p + Replace(s, pat, with);
    }
  }

  lemma FirstPassSkips(p: string, s: string, sender: string)
    requires '%' !in p
    ensures Replace(p + s, NAME, sender) == p + Replace(s, NAME, sender)
  {
    ReplaceSkips(p, s, NAME, sender);
  }

  lemma PrefixAfter(c: char, p: string, s: string)
    ensures [c] + p <= [c] + s <==> p <= s
  {
    if |p| <= |s| {
      assert ([c] + s)[..|p| + 1] == [c] + s[..|p|];
      SamePrefix([c], s[..|p|], p);
    }
  }

  lemma FirstPassKeepsOriginal(format: string, sender: string)
    requires ORIGINAL <= format && !("name%" <= format[10..])
    ensures Replace(format, NAME, sender) == ORIGINAL + Replace(format[10..], NAME, sender)
  {
    var mid, rest := "original", format[10..];
    assert format == ORIGINAL + rest;
    assert format[1..] == mid + ("%" + rest) && format[0] == '%' && format[1] == 'o';
    assert !(NAME <= format) by { assert NAME[1] == 'n'; }
    FirstPassSkips(mid, "%" + rest, sender);
    var last := "%" + rest;
    assert last[1..] == rest;
    assert !(NAME <= last) by { PrefixAfter('%', "name%", rest); }
    assert Replace(last, NAME, sender) == "%" + Replace(rest, NAME, sender);
    assert "%" + (mid + ("%" + Replace(rest, NAME, sender))) == ORIGINAL + Replace(rest, NAME, sender);
  }

  /** A clean format reads as a template for every sender without a percent sign. */
  lemma {:induction false} CleanReadsAsTemplate(format: string, sender: string)
    requires Clean(format) && '%' !in sender
    ensures ReadAsTemplate(format, sender)
    decreases |format|
  {
    if format == "" {
    } else if NAME <= format {
      var rest := format[6..];
      assert format[0] == '%' && format[1] == 'n';
      assert !(ORIGINAL <= format) by { assert ORIGINAL[1] == 'o'; }
      assert Clean(rest);
      CleanReadsAsTemplate(rest, sender);
      SecondPassSkips(sender, Replace(rest, NAME, sender));
      assert Tokens(format)[1..] == Tokens(rest);
    } else if ORIGINAL <= format {
      var rest := format[10..];
      assert format[0] == '%';
      FirstPassKeepsOriginal(format, sender);
      CleanReadsAsTemplate(rest, sender);
      var text := ORIGINAL + Replace(rest, NAME, sender);
      assert text[10..] == Replace(rest, NAME, sender);
      assert Tokens(format)[1..] == Tokens(rest);
    } else {
      var rest := format[1..];
      CleanReadsAsTemplate(rest, sender);
      var text := [format[0]] + Replace(rest, NAME, sender);
      assert text[1..] == Replace(rest, NAME, sender);
      assert !(ORIGINAL <= text) by { assert ORIGINAL[0] == '%' && text[0] == format[0]; }
      assert Tokens(format)[1..] == Tokens(rest);
    }
  }

  /**
   Rendering is one-pass substitution in the sender's own format, or else in the global one,
   for clean formats, senders without a percent sign and all originals.
   */
  lemma CleanFormatsRender(c: SubjectConfig, sender: string, original: string)
    requires '%' !in sender
    ensures sender in c.senders && Clean(c.senders[sender]) ==>
      Render(c, sender, original) == Expand(Tokens(c.senders[sender]), sender, original)
    ensures sender !in c.senders && Clean(c.format) ==>
      Render(c, sender, original) == Expand(Tokens(c.format), sender, original)
  {
    var format := if sender in c.senders then c.senders[sender] else c.format;
    if Clean(format) {
      CleanReadsAsTemplate(format, sender);
      TwoPassesIff(format, sender);
    }
  }

  // ----- survival of the original -----

  /** The stretches of a format between its `%name%` occurrences, as the first pass finds them. */
  function Pieces(format: string): (ps: seq<string>)
    ensures ps != []
    decreases |format|
  {
    if format == "" then [""]
    else if NAME <= format then [""] + Pieces(format[6..])
    else var ps := Pieces(format[1..]); [[format[0]] + ps[0]] + ps[1..]
  }

  function Join(ps: seq<string>, with: string): string
    requires ps != []
  {
    if |ps| == 1 then ps[0] else ps[0] + (with + Join(ps[1..], with))
  }

  /** Some stretch outside all `%name%` occurrences holds an `%original%`. */
  predicate KeepsOriginal(format: string) {
    exists i :: 0 <= i < |Pieces(format)| && Contains(Pieces(format)[i], ORIGINAL)
  }

  lemma {:induction false} FirstPassJoins(format: string, sender: string)
    ensures Replace(format, NAME, sender) == Join(Pieces(format), sender)
    decreases |format|
  {
    if format == "" {
    } else if NAME <= format {
      FirstPassJoins(format[6..], sender);
      var ps := Pieces(format[6..]);
      assert ([""] + ps)[1..] == ps;
      assert "" + (sender + Join(ps, sender)) == sender + Join(ps, sender);
    } else {
      FirstPassJoins(format[1..], sender);
      var ps := Pieces(format[1..]);
      var qs := [[format[0]] + ps[0]] + ps[1..];
      assert qs[1..] == ps[1..];
      if |ps| > 1 {
        var tail := sender + Join(ps[1..], sender);
        assert [format[0]] + (ps[0] + tail) == ([format[0]] + ps[0]) + tail;
      }
    }
  }

  lemma OccursWithin(a: string, s: string, b: string, pat: string, i: nat)
    requires OccursAt(s, pat, i)
    ensures Contains(a + (s + b), pat)
  {
    var whole := a + (s + b);
    assert whole[|a| + i..] == s[i..] + b;
    assert OccursAt(whole, pat, |a| + i);
  }

  lemma {:induction false} JoinContains(ps: seq<string>, with: string, k: nat, pat: string)
    requires k < |ps| && Contains(ps[k], pat)
    ensures Contains(Join(ps, with), pat)
  {
    if k == 0 {
      var i: nat :| i <= |ps[0]| && OccursAt(ps[0], pat, i);
      var b := if |ps| == 1 then "" else with + Join(ps[1..], with);
      OccursWithin("", ps[0], b, pat, i);
      assert "" + (ps[0] + b) == Join(ps, with);
    } else {
      JoinContains(ps[1..], with, k - 1, pat);
      var rest := Join(ps[1..], with);
      var i: nat :| i <= |rest| && OccursAt(rest, pat, i);
      OccursWithin(ps[0] + with, rest, "", pat, i);
      assert (ps[0] + with) + (rest + "") == Join(ps, with);
    }
  }

  /** A separator foreign to the pattern cannot be part of an occurrence. */
  lemma {:induction false} JoinContainsOnly(ps: seq<string>, c: char, pat: string)
    requires ps != [] && c !in pat && pat != "" && Contains(Join(ps, [c]), pat)
    ensures exists k :: 0 <= k < |ps| && Contains(ps[k], pat)
  {
    var whole := Join(ps, [c]);
    var i: nat :| i <= |whole| && OccursAt(whole, pat, i);
    if |ps| > 1 {
      var rest, n := Join(ps[1..], [c]), |ps[0]|;
      assert whole[n] == c;
      if i <= n {
        OccursBefore(whole, pat, i, n, c);
        assert whole[..n] == ps[0];
        assert OccursAt(ps[0], pat, i);
      } else {
        assert whole[i..] == rest[i - n - 1..];
        assert OccursAt(rest, pat, i - n - 1);
        JoinContainsOnly(ps[1..], c, pat);
        var k :| 0 <= k < |ps[1..]| && Contains(ps[1..][k], pat);
        assert ps[k + 1] == ps[1..][k];
      }
    }
  }

  lemma OccursBefore(s: string, pat: string, i: nat, n: nat, c: char)
    requires OccursAt(s, pat, i) && i <= n < |s| && s[n] == c && c !in pat
    ensures OccursAt(s[..n], pat, i)
  {
    var tail := s[i..];
    assert pat == tail[..|pat|];
    assert forall k :: 0 <= k < |pat| ==> pat[k] == s[i + k] && pat[k] in pat;
    assert i + |pat| <= n;
    assert s[..n][i..] == tail[..n - i];
    assert tail[..n - i][..|pat|] == pat;
  }

  lemma {:induction false} ReplaceAbsent(s: string, pat: string, with: string)
    requires pat != "" && !Contains(s, pat)
    ensures Replace(s, pat, with) == s
  {
    if s != "" {
      assert !(pat <= s) by { assert s[0..] == s; assert !OccursAt(s, pat, 0); }
      forall i: nat | i <= |s[1..]| ensures !OccursAt(s[1..], pat, i) {
        assert s[1..][i..] == s[i + 1..];
        assert !OccursAt(s, pat, i + 1);
      }
      ReplaceAbsent(s[1..], pat, with);
      assert s == [s[0]] + s[1..];
    }
  }

  lemma {:induction false} ReplaceInserts(s: string, pat: string, with: string)
    requires pat != "" && Contains(s, pat)
    ensures Contains(Replace(s, pat, with), with)
    decreases |s|
  {
    var i: nat :| i <= |s| && OccursAt(s, pat, i);
    assert s != "" by { assert |s[i..]| >= |pat|; }
    if pat <= s {
      var rest := Replace(s[|pat|..], pat, with);
      assert (with + rest)[0..] == with + rest;
      assert OccursAt(with + rest, with, 0);
    } else {
      assert i > 0 by { assert s[0..] == s; }
      assert s[1..][i - 1..] == s[i..];
      assert OccursAt(s[1..], pat, i - 1);
      ReplaceInserts(s[1..], pat, with);
      var rest := Replace(s[1..], pat, with);
      var j: nat :| j <= |rest| && OccursAt(rest, with, j);
      OccursWithin([s[0]], rest, "", with, j);
      assert [s[0]] + (rest + "") == [s[0]] + rest;
    }
  }

  /** If the format still holds `%original%` after the first pass, the original is in the rendered subject. */
  lemma OriginalRendered(format: string, sender: string, original: string)
    requires Contains(Replace(format, NAME, sender), ORIGINAL)
    ensures Contains(Fill(format, sender, original), original)
  {
    ReplaceInserts(Replace(format, NAME, sender), ORIGINAL, original);
  }

  /** The original survives for all senders and originals exactly when the format keeps an `%original%` clear of `%name%`. */
  lemma OriginalSurvivesIff(format: string)
    ensures (forall sender, original :: Contains(Fill(format, sender, original), original)) <==> KeepsOriginal(format)
  {
    if KeepsOriginal(format) {
      var k :| 0 <= k < |Pieces(format)| && Contains(Pieces(format)[k], ORIGINAL);
      forall sender, original ensures Contains(Fill(format, sender, original), original) {
        FirstPassJoins(format, sender);
        JoinContains(Pieces(format), sender, k, ORIGINAL);
        OriginalRendered(format, sender, original);
      }
    } else {
      var named := Replace(format, NAME, "#");
      FirstPassJoins(format, "#");
      if Contains(named, ORIGINAL) {
        JoinContainsOnly(Pieces(format), '#', ORIGINAL);
      }
      ReplaceAbsent(named, ORIGINAL, named + "#");
      assert !Contains(Fill(format, "#", named + "#"), named + "#");
    }
  }

  /** So a rendered subject holds the original when the sender's own format, or else the global one, keeps it. */
  lemma RenderKeepsOriginal(c: SubjectConfig, sender: string, original: string)
    ensures sender in c.senders && KeepsOriginal(c.senders[sender]) ==> Contains(Render(c, sender, original), original)
    ensures sender !in c.senders && KeepsOriginal(c.format) ==> Contains(Render(c, sender, original), original)
  {
    OriginalSurvivesIff(if sender in c.senders then c.senders[sender] else c.format);
  }

  /** The check made when the configuration is loaded is necessary for survival. */
  lemma ValidationNecessary(format: string)
    requires KeepsOriginal(format)
    ensures Contains(format, ORIGINAL)
  {
    var k :| 0 <= k < |Pieces(format)| && Contains(Pieces(format)[k], ORIGINAL);
    JoinContains(Pieces(format), NAME, k, ORIGINAL);
    FirstPassJoins(format, NAME);
    ReplaceSame(format, NAME);
  }

  lemma {:induction false} ReplaceSame(s: string, pat: string)
    requires pat != ""
    ensures Replace(s, pat, pat) == s
    decreases |s|
  {
    if s != "" {
      if pat <= s {
        ReplaceSame(s[|pat|..], pat);
        assert pat + s[|pat|..] == s;
      } else {
        ReplaceSame(s[1..], pat);
        assert [s[0]] + s[1..] == s;
      }
    }
  }

  lemma NameFront(rest: string, sender: string)
    ensures Pieces(NAME + rest) == [""] + Pieces(rest)
    ensures Replace(NAME + rest, NAME, sender) == sender + Replace(rest, NAME, sender)
  {
    assert (NAME + rest)[6..] == rest;
  }

  /** A format that passes the check and loses every subject: `%name%original%`. */
  lemma ValidatedIsNotEnough(format: string, sender: string, original: string)
    requires format == "%name%original%" && '%' !in sender
    ensures Contains(format, ORIGINAL) && !KeepsOriginal(format)
    ensures Fill(format, sender, original) == sender + "original%"
  {
    var rest := "original%";
    assert format == NAME + rest;
    assert Contains(format, ORIGINAL) by {
      assert format[5..] == ORIGINAL;
      assert OccursAt(format, ORIGINAL, 5);
    }
    SubjectLost(rest, sender, original);
  }

  lemma SubjectLost(rest: string, sender: string, original: string)
    requires rest == "original%" && '%' !in sender
    ensures !KeepsOriginal(NAME + rest) && Fill(NAME + rest, sender, original) == sender + rest
  {
    assert |rest| < |ORIGINAL|;
    assert Pieces(rest) == [rest] && Replace(rest, NAME, sender) == rest by { NoPercentFront(rest, sender); }
    NameFront(rest, sender);
    WitnessPieces(NAME + rest, rest);
    NoOriginalIn(sender, rest);
    ReplaceAbsent(sender + rest, ORIGINAL, original);
  }

  lemma NamedFirst(body: string, sender: string)
    requires body == "original" && '%' !in sender
    ensures Replace("%" + (body + NAME), NAME, sender) == "%" + (body + sender)
  {
    var rest := body + NAME;
    var format := "%" + rest;
    assert format[1..] == rest && format[1] == 'o' && NAME[1] == 'n';
    FirstPassSkips(body, NAME, sender);
    assert NAME[6..] == "" && sender + "" == sender;
  }

  lemma OriginalCutShort(s: string, body: string, sender: string)
    requires s == "%" + (body + sender) && body == "original" && '%' !in sender
    ensures !Contains(s, ORIGINAL)
  {
    forall i: nat | i <= |s| ensures !OccursAt(s, ORIGINAL, i) {
      if i + 9 < |s| { assert s[i..][9] == sender[i] && sender[i] in sender && ORIGINAL[9] == '%'; }
    }
  }

  lemma OverlapReadFirst(format: string, named: string, sender: string, original: string)
    requires ORIGINAL <= format && !(NAME <= format) && Replace(format, NAME, sender) == named
    requires named != "" && named[0] == '%' && !Contains(named, ORIGINAL)
    ensures Contains(format, ORIGINAL) && !ReadAsTemplate(format, sender) && Fill(format, sender, original) == named
  {
    assert Contains(format, ORIGINAL) by { assert format[0..] == format && OccursAt(format, ORIGINAL, 0); }
    assert Fill(format, sender, original) == named by { ReplaceAbsent(named, ORIGINAL, original); }
    assert SecondPass(named)[0] == Lit('%') by { assert named[0..] == named && !OccursAt(named, ORIGINAL, 0); }
    assert Tokens(format)[0] == OriginalToken && Named(Tokens(format), sender)[0] == OriginalToken;
  }

  lemma OverlapNamed(body: string, sender: string)
    requires body == "original" && '%' !in sender
    ensures Replace("%" + (body + NAME), NAME, sender) == "%" + (body + sender)
    ensures !Contains("%" + (body + sender), ORIGINAL)
    ensures ORIGINAL <= "%" + (body + NAME) && !(NAME <= "%" + (body + NAME))
  {
    NamedFirst(body, sender);
    OriginalCutShort("%" + (body + sender), body, sender);
    assert ("%" + (body + NAME))[1] == 'o' && NAME[1] == 'n';
  }

  /** In `%original%name%` the passes read the two tokens the other way round than a template does, and lose the original. */
  lemma OverlapMisread(body: string, sender: string, original: string)
    requires body == "original" && '%' !in sender
    ensures var format := "%" + (body + "%name%");
            && Contains(format, ORIGINAL) && !ReadAsTemplate(format, sender)
            && Fill(format, sender, original) == "%" + (body + sender)
  {
    OverlapNamed(body, sender);
    OverlapReadFirst("%" + (body + NAME), "%" + (body + sender), sender, original);
  }

  lemma WitnessPieces(format: string, rest: string)
    requires Pieces(format) == [""] + [rest] && |rest| < |ORIGINAL|
    ensures !KeepsOriginal(format)
  {
    TooShort(rest, ORIGINAL);
    TooShort("", ORIGINAL);
  }

  lemma TooShort(s: string, pat: string)
    requires |s| < |pat|
    ensures !Contains(s, pat)
  {
  }

  lemma NoOriginalIn(sender: string, rest: string)
    requires '%' !in sender && |rest| < |ORIGINAL|
    ensures !Contains(sender + rest, ORIGINAL)
  {
    var s := sender + rest;
    forall i: nat | i <= |s| ensures !OccursAt(s, ORIGINAL, i) {
      if i < |sender| { assert s[i..][0] == sender[i] && sender[i] in sender && ORIGINAL[0] == '%'; }
    }
  }

  /** A text too short for `%name%` after its only percent sign is one piece. */
  lemma NoPercentFront(rest: string, sender: string)
    requires rest == "original%"
    ensures Pieces(rest) == [rest] && Replace(rest, NAME, sender) == rest
  {
    var body := "original";
    assert rest == body + "%";
    FirstPassSkips(body, "%", sender);
    assert Replace("%", NAME, sender) == "%" + Replace("", NAME, sender) by { assert "%"[1..] == ""; }
    PiecesSkip(body, "%");
    assert Pieces("%") == ["%"] by { assert "%"[1..] == "" && Pieces("") == [""]; assert ['%'] + "" == "%"; }
  }

  lemma {:induction false} PiecesSkip(p: string, s: string)
    requires '%' !in p
    ensures Pieces(p + s) == [p + Pieces(s)[0]] + Pieces(s)[1..]
  {
    if p == "" {
      assert p + s == s && p + Pieces(s)[0] == Pieces(s)[0];
    } else {
      assert (p + s)[0] == p[0] && (p + s)[1..] == p[1..] + s;
      assert !(NAME <= p + s) by { assert NAME[0] == '%' && p[0] in p; }
      PiecesSkip(p[1..], s);
      assert [p[0]] + (p[1..] + Pieces(s)[0]) == p + Pieces(s)[0];
    }
  }
}
