/** Keyword normalization, and when two keywords count as the same. */
module Keywords {
  import opened Wrappers
  import opened Text

  datatype Keyword = Keyword(cleaned: string, canonical: string, duplicateKey: string)

  datatype Refusal = Required | TooLong | NonAscii

  const MAX_LENGTH := 40

  /** What separates words: white space, and for the duplicate key the hyphen as well. */
  datatype Separator = Spaces | Gaps

  predicate Separates(sep: Separator, c: char) {
    IsSpace(c) || (sep.Gaps? && c == '-')
  }

  /** Replaces each maximal run of separators by one space. */
  function Squeeze(sep: Separator, s: string): (r: string)
    ensures |r| <= |s| && (s != "" ==> r != "")
  {
    if s == "" then ""
    else if !Separates(sep, s[0]) then [s[0]] + Squeeze(sep, s[1..])
    else if |s| > 1 && Separates(sep, s[1]) then Squeeze(sep, s[1..])
    else [' '] + Squeeze(sep, s[1..])
  }

  predicate IsAscii(s: string) {
    forall i | 0 <= i < |s| :: ' ' <= s[i] <= '~'
  }

  function DuplicateKey(canonical: string): string {
    Trim(Squeeze(Gaps, canonical))
  }

  function Normalize(raw: string): Result<Keyword, Refusal> {
    var trimmed := Trim(raw);
    if trimmed == "" then Err(Required)
    else
      var collapsed := Squeeze(Spaces, trimmed);
      if |collapsed| > MAX_LENGTH then Err(TooLong)
      else if !IsAscii(collapsed) then Err(NonAscii)
      else Ok(Keyword(collapsed, Lower(collapsed), DuplicateKey(Lower(collapsed))))
  }

  // ----- the words of a keyword

  /** The maximal runs without white space and hyphens, in order. */
  function Tokens(s: string): (tokens: seq<string>)
    ensures s != "" && !Separates(Gaps, s[0]) ==> tokens != []
  {
    if s == "" then []
    else if Separates(Gaps, s[0]) then Tokens(s[1..])
    else if |s| > 1 && !Separates(Gaps, s[1]) then
      var rest := Tokens(s[1..]);
      [[s[0]] + rest[0]] + rest[1..]
    else [[s[0]]] + Tokens(s[1..])
  }

  function LowerAll(tokens: seq<string>): (r: seq<string>)
    ensures |r| == |tokens| && forall i | 0 <= i < |tokens| :: r[i] == Lower(tokens[i])
  {
    seq(|tokens|, i requires 0 <= i < |tokens| => Lower(tokens[i]))
  }

  // ----- squeezing, trimming and lower-casing keep the words

  lemma {:induction false} SqueezeKeepsTokens(sep: Separator, s: string)
    ensures Tokens(Squeeze(sep, s)) == Tokens(s)
    ensures s != "" && !Separates(Gaps, s[0]) ==> Squeeze(sep, s)[0] == s[0]
    ensures s != "" && Separates(Gaps, s[0]) ==> Separates(Gaps, Squeeze(sep, s)[0])
    decreases s
  {
    if s == "" {
    } else {
      var rest := s[1..];
      SqueezeKeepsTokens(sep, rest);
      var r := Squeeze(sep, s);
      if Separates(sep, s[0]) && rest != "" && Separates(sep, rest[0]) {
        assert r == Squeeze(sep, rest);
      } else {
        assert r[1..] == Squeeze(sep, rest);
        assert rest != "" ==> r[1] == Squeeze(sep, rest)[0];
      }
    }
  }

  lemma {:induction false} TrimStartKeepsTokens(s: string)
    ensures Tokens(TrimStart(s)) == Tokens(s)
    decreases s
  {
    if s != "" && IsSpace(s[0]) {
      TrimStartKeepsTokens(s[1..]);
    }
  }

  lemma {:induction false} SpaceAtEnd(s: string, c: char)
    requires IsSpace(c)
    ensures Tokens(s + [c]) == Tokens(s)
    decreases s
  {
    if s == "" {
      assert s + [c] == [c] && [c][1..] == "";
    } else {
      assert (s + [c])[1..] == s[1..] + [c];
      SpaceAtEnd(s[1..], c);
      assert |s| > 1 ==> (s + [c])[1] == s[1];
    }
  }

  lemma {:induction false} TrimEndKeepsTokens(s: string)
    ensures Tokens(TrimEnd(s)) == Tokens(s)
    decreases s
  {
    if s != "" && IsSpace(s[|s| - 1]) {
      var rest := s[..|s| - 1];
      TrimEndKeepsTokens(rest);
      SpaceAtEnd(rest, s[|s| - 1]);
      assert rest + [s[|s| - 1]] == s;
    }
  }

  lemma TrimKeepsTokens(s: string)
    ensures Tokens(Trim(s)) == Tokens(s)
  {
    TrimStartKeepsTokens(s);
    TrimEndKeepsTokens(TrimStart(s));
  }

  lemma LowerCons(c: char, s: string)
    ensures Lower([c] + s) == [LowerChar(c)] + Lower(s)
    ensures forall sep :: Separates(sep, LowerChar(c)) <==> Separates(sep, c)
  {
  }

  lemma LowerAllCons(t: string, rest: seq<string>)
    ensures LowerAll([t] + rest) == [Lower(t)] + LowerAll(rest)
  {
  }

  lemma {:induction false} LowerKeepsTokens(s: string)
    ensures Tokens(Lower(s)) == LowerAll(Tokens(s))
    decreases s
  {
    if s == "" {
    } else {
      var rest := s[1..];
      var t := Tokens(rest);
      LowerKeepsTokens(rest);
      assert s == [s[0]] + rest;
      LowerCons(s[0], rest);
      assert Lower(s)[1..] == Lower(rest);
      if |s| > 1 { LowerCons(s[1], rest[1..]); }
      hide LowerAll, Lower, Separates;
      if !Separates(Gaps, s[0]) {
        LowerCons(s[0], "");
        LowerAllCons([s[0]], t);
        if |s| > 1 && !Separates(Gaps, s[1]) {
          LowerCons(s[0], t[0]);
          LowerAllCons([s[0]] + t[0], t[1..]);
          LowerAllCons(t[0], t[1..]);
          assert t == [t[0]] + t[1..];
        } else {
          assert [s[0]] + "" == [s[0]] && Lower("") == "";
          assert Lower([s[0]]) == [LowerChar(s[0])];
          assert |s| > 1 ==> Lower(s)[1] == LowerChar(s[1]);
          assert Tokens(Lower(s)) == [[LowerChar(s[0])]] + Tokens(Lower(rest));
        }
      }
    }
  }

  // ----- the duplicate key is the words joined by single spaces

  /** Separators are single spaces between words. */
  predicate IsSqueezed(sep: Separator, s: string) {
    && (forall i | 0 <= i < |s| :: Separates(sep, s[i]) ==> s[i] == ' ')
    && (forall i | 0 < i < |s| :: Separates(sep, s[i]) ==> !Separates(sep, s[i - 1]))
  }

  lemma {:induction false} SqueezeIsSqueezed(sep: Separator, s: string)
    ensures IsSqueezed(sep, Squeeze(sep, s))
    ensures s != "" ==> (Separates(sep, Squeeze(sep, s)[0]) <==> Separates(sep, s[0]))
    ensures s != "" && !Separates(sep, s[0]) ==> Squeeze(sep, s)[0] == s[0]
    decreases s
  {
    if s == "" {
    } else {
      var rest, r := s[1..], Squeeze(sep, s);
      var q := Squeeze(sep, rest);
      SqueezeIsSqueezed(sep, rest);
      if !(Separates(sep, s[0]) && rest != "" && Separates(sep, rest[0])) {
        assert r == [r[0]] + q;
        forall i | 0 < i < |r| && Separates(sep, r[i]) ensures !Separates(sep, r[i - 1]) {
          assert r[i] == q[i - 1];
          assert i > 1 ==> r[i - 1] == q[i - 2];
        }
      }
    }
  }

  lemma {:induction false} SqueezedStays(sep: Separator, s: string)
    requires IsSqueezed(sep, s)
    ensures Squeeze(sep, s) == s
    decreases s
  {
    if s == "" {
    } else {
      var rest := s[1..];
      assert forall i | 0 <= i < |rest| :: rest[i] == s[i + 1];
      SqueezedStays(sep, rest);
      assert s == [s[0]] + rest;
    }
  }

  lemma {:induction false} SqueezeKeepsLast(sep: Separator, s: string)
    requires s != ""
    ensures Squeeze(sep, s)[|Squeeze(sep, s)| - 1] == if Separates(sep, s[|s| - 1]) then ' ' else s[|s| - 1]
    decreases s
  {
    if |s| > 1 {
      SqueezeKeepsLast(sep, s[1..]);
    } else {
      assert Squeeze(sep, s[1..]) == "";
    }
  }

  lemma TrimKeepsSqueezed(sep: Separator, s: string)
    requires IsSqueezed(sep, s)
    ensures IsSqueezed(sep, Trim(s))
  {
  }

  lemma {:induction false} JoinTokens(s: string)
    requires IsSqueezed(Gaps, s) && (s == "" || (!Separates(Gaps, s[0]) && !Separates(Gaps, s[|s| - 1])))
    ensures Join(Tokens(s), " ") == s
    decreases s
  {
    if |s| > 1 {
      var rest := s[1..];
      assert forall i | 0 <= i < |rest| :: rest[i] == s[i + 1];
      if !Separates(Gaps, s[1]) {
        JoinTokens(rest);
        JoinFirst(s[0], Tokens(rest));
        assert [s[0]] + rest == s;
      } else {
        var after := rest[1..];
        assert forall i | 0 <= i < |after| :: after[i] == s[i + 2];
        assert !Separates(Gaps, s[2]);
        JoinTokens(after);
        assert Tokens(rest) == Tokens(after);
        assert s == [s[0]] + [' '] + after;
        assert Tokens(s)[1..] == Tokens(after);
      }
    } else if |s| == 1 {
      assert Tokens(s[1..]) == [];
    }
  }

  lemma JoinFirst(c: char, tokens: seq<string>)
    requires tokens != []
    ensures Join([[c] + tokens[0]] + tokens[1..], " ") == [c] + Join(tokens, " ")
  {
    var more := [[c] + tokens[0]] + tokens[1..];
    if |tokens| > 1 {
      assert more[1..] == tokens[1..];
      assert ([c] + tokens[0]) + " " + Join(tokens[1..], " ") == [c] + (tokens[0] + " " + Join(tokens[1..], " "));
    }
  }

  /** Squeezed under gaps, trimming leaves words at both ends. */
  lemma TrimmedEnds(s: string)
    requires IsSqueezed(Gaps, s) && IsTrimmed(s)
    ensures s == "" || (!Separates(Gaps, s[0]) && !Separates(Gaps, s[|s| - 1]))
  {
  }

  lemma KeyIsJoin(canonical: string)
    ensures DuplicateKey(canonical) == Join(Tokens(canonical), " ")
    ensures Tokens(DuplicateKey(canonical)) == Tokens(canonical)
    ensures IsSqueezed(Gaps, DuplicateKey(canonical)) && IsTrimmed(DuplicateKey(canonical))
  {
    var squeezed := Squeeze(Gaps, canonical);
    SqueezeKeepsTokens(Gaps, canonical);
    TrimKeepsTokens(squeezed);
    SqueezeIsSqueezed(Gaps, canonical);
    TrimKeepsSqueezed(Gaps, squeezed);
    TrimIsTrimmed(squeezed);
    hide Squeeze, Trim, Tokens, Join, IsSqueezed, IsTrimmed;
    TrimmedEnds(Trim(squeezed));
    JoinTokens(Trim(squeezed));
  }

  lemma CanonicalTokens(raw: string)
    ensures Tokens(Lower(Squeeze(Spaces, Trim(raw)))) == LowerAll(Tokens(raw))
  {
    hide *;
    TrimKeepsTokens(raw);
    SqueezeKeepsTokens(Spaces, Trim(raw));
    LowerKeepsTokens(Squeeze(Spaces, Trim(raw)));
  }

  lemma NormalizeOk(raw: string)
    requires Normalize(raw).Ok?
    ensures var c := Squeeze(Spaces, Trim(raw));
            && Trim(raw) != "" && |c| <= MAX_LENGTH && IsAscii(c)
            && Normalize(raw) == Ok(Keyword(c, Lower(c), DuplicateKey(Lower(c))))
  {
  }

  /** Two keywords have the same duplicate key exactly when their words are the same up to case. */
  lemma SameKeyIff(a: string, b: string)
    requires Normalize(a).Ok? && Normalize(b).Ok?
    ensures Normalize(a).value.duplicateKey == Normalize(b).value.duplicateKey
            <==> LowerAll(Tokens(a)) == LowerAll(Tokens(b))
  {
    hide *;
    NormalizeOk(a);
    NormalizeOk(b);
    CanonicalTokens(a);
    CanonicalTokens(b);
    KeyIsJoin(Normalize(a).value.canonical);
    KeyIsJoin(Normalize(b).value.canonical);
  }

  // ----- normalizing what is normalized

  lemma LowerKeepsSqueezed(sep: Separator, s: string)
    requires IsSqueezed(sep, s)
    ensures IsSqueezed(sep, Lower(s))
  {
  }

  lemma NormalizedShape(raw: string)
    requires Normalize(raw).Ok?
    ensures var k := Normalize(raw).value;
            && k.cleaned != "" && IsTrimmed(k.cleaned) && IsSqueezed(Spaces, k.cleaned) && |k.cleaned| <= MAX_LENGTH
            && IsAscii(k.cleaned) && k.canonical == Lower(k.cleaned) && k.duplicateKey == DuplicateKey(k.canonical)
  {
    hide Trim, Squeeze, IsSqueezed, Normalize, IsAscii, DuplicateKey, Lower;
    var trimmed := Trim(raw);
    NormalizeOk(raw);
    TrimIsTrimmed(raw);
    SqueezeIsSqueezed(Spaces, trimmed);
    SqueezeKeepsLast(Spaces, trimmed);
    hide IsSpace;
  }

  /** A cleaned keyword normalizes to itself. */
  lemma CleanStays(s: string)
    requires s != "" && IsTrimmed(s) && IsSqueezed(Spaces, s) && |s| <= MAX_LENGTH && IsAscii(s)
    ensures Normalize(s) == Ok(Keyword(s, Lower(s), DuplicateKey(Lower(s))))
  {
    hide Trim, Squeeze, IsAscii, Lower, DuplicateKey, IsTrimmed, IsSqueezed;
    TrimIsTrimmed(s);
    SqueezedStays(Spaces, s);
  }

  lemma LowerTwice(s: string)
    ensures Lower(Lower(s)) == Lower(s)
    ensures IsTrimmed(s) ==> IsTrimmed(Lower(s))
    ensures IsAscii(s) ==> IsAscii(Lower(s))
  {
  }

  /** Normalizing the cleaned or the canonical form again changes nothing. */
  lemma NormalizeIsIdempotent(raw: string)
    requires Normalize(raw).Ok?
    ensures var k := Normalize(raw).value;
            && Normalize(k.cleaned) == Ok(k)
            && Normalize(k.canonical) == Ok(k.(cleaned := k.canonical))
  {
    hide Normalize;
    NormalizedShape(raw);
    var k := Normalize(raw).value;
    CleanStays(k.cleaned);
    LowerTwice(k.cleaned);
    LowerKeepsSqueezed(Spaces, k.cleaned);
    CleanStays(k.canonical);
  }

  lemma CharsKeepShape(s: string, r: string)
    requires IsAscii(s) && Lower(s) == s && forall c | c in r :: c in s
    ensures IsAscii(r) && Lower(r) == r
  {
    forall i | 0 <= i < |r| ensures ' ' <= r[i] <= '~' && LowerChar(r[i]) == r[i] {
      assert r[i] in r;
      var j :| 0 <= j < |s| && s[j] == r[i];
      assert Lower(s)[j] == s[j];
    }
  }

  lemma KeyShape(canonical: string)
    requires IsAscii(canonical) && |canonical| <= MAX_LENGTH && Lower(canonical) == canonical
    ensures var key := DuplicateKey(canonical); IsAscii(key) && |key| <= MAX_LENGTH && Lower(key) == key
  {
    hide Squeeze, Trim, IsAscii, Lower, IsTrimmed;
    var squeezed := Squeeze(Gaps, canonical);
    SqueezeShape(canonical);
    TrimIsTrimmed(squeezed);
    CharsKeepShape(squeezed, Trim(squeezed));
  }

  lemma {:induction false} SqueezeShape(s: string)
    requires IsAscii(s) && Lower(s) == s
    ensures IsAscii(Squeeze(Gaps, s)) && Lower(Squeeze(Gaps, s)) == Squeeze(Gaps, s)
    decreases s
  {
    if s == "" {
    } else {
      assert forall i | 0 <= i < |s[1..]| :: s[1..][i] == s[i + 1] == Lower(s)[i + 1];
      SqueezeShape(s[1..]);
      assert Lower(s)[0] == s[0];
    }
  }

  /**
    The duplicate key of a keyword can itself be entered, and is then a fixed point, exactly when the
    keyword has a word at all. A keyword made of hyphens only has the empty key.
   */
  lemma KeyNormalizesIff(raw: string)
    requires Normalize(raw).Ok?
    ensures var key := Normalize(raw).value.duplicateKey;
            && (Normalize(key).Ok? <==> Tokens(raw) != [])
            && (Tokens(raw) != [] ==> Normalize(key) == Ok(Keyword(key, key, key)))
  {
    hide Normalize, Tokens, LowerAll, DuplicateKey, IsSqueezed, IsTrimmed, IsAscii, Lower;
    NormalizedShape(raw);
    var k := Normalize(raw).value;
    NormalizeOk(raw);
    CanonicalTokens(raw);
    KeyIsJoin(k.canonical);
    LowerTwice(k.cleaned);
    KeyShape(k.canonical);
    WordsInKey(k.duplicateKey);
    if Tokens(raw) == [] {
      NormalizeEmpty();
    } else {
      JoinIsKey(k.duplicateKey);
      GapsAreSpaces(k.duplicateKey);
      CleanStays(k.duplicateKey);
    }
  }

  /** A single hyphen is accepted, but its duplicate key is not. */
  lemma HyphenHasEmptyKey()
    ensures Normalize("-").Ok? && Normalize("-").value.duplicateKey == "" && Normalize("") == Err(Required)
  {
    NormalizeEmpty();
    HyphenIsAccepted();
    NormalizeOk("-");
    CanonicalTokens("-");
    KeyIsJoin(Normalize("-").value.canonical);
    assert Tokens("-") == [] by { assert "-"[1..] == ""; }
    hide Normalize, Trim, Squeeze, Lower, IsAscii, DuplicateKey, IsTrimmed, IsSqueezed;
    assert LowerAll([]) == [];
  }

  lemma HyphenIsAccepted()
    ensures Normalize("-").Ok?
  {
    var s := "-";
    assert Trim(s) == s by { TrimIsTrimmed(s); }
    assert Squeeze(Spaces, s) == s by { assert s[1..] == "" && !Separates(Spaces, s[0]); }
    hide Trim, Squeeze, Lower, DuplicateKey;
  }

  lemma NormalizeEmpty()
    ensures Normalize("") == Err(Required)
  {
  }

  lemma WordsInKey(key: string)
    requires IsSqueezed(Gaps, key) && IsTrimmed(key)
    ensures key == "" <==> Tokens(key) == []
  {
  }

  lemma JoinIsKey(key: string)
    requires IsSqueezed(Gaps, key) && IsTrimmed(key)
    ensures DuplicateKey(key) == key
  {
    SqueezedStays(Gaps, key);
    TrimIsTrimmed(key);
  }

  lemma GapsAreSpaces(s: string)
    requires IsSqueezed(Gaps, s)
    ensures IsSqueezed(Spaces, s)
  {
  }

  /**
    What is refused, in this order: a blank keyword, one that is longer than forty characters once it is
    trimmed and its runs of white space are single spaces, and one with a character that is not printable
    ASCII.
   */
  lemma RefusedIff(raw: string)
    ensures var cleaned := Squeeze(Spaces, Trim(raw));
            var ascii := forall i | 0 <= i < |cleaned| :: 32 <= cleaned[i] as int <= 126;
            && (Normalize(raw) == Err(Required) <==> Blank(raw))
            && (Normalize(raw) == Err(TooLong) <==> !Blank(raw) && |cleaned| > 40)
            && (Normalize(raw) == Err(NonAscii) <==> !Blank(raw) && |cleaned| <= 40 && !ascii)
            && (Normalize(raw).Ok? ==> Normalize(raw).value.cleaned == cleaned && IsSqueezed(Spaces, cleaned)
                                       && IsTrimmed(cleaned) && Tokens(cleaned) == Tokens(raw))
  {
    BlankIffTrimmedAway(raw);
    hide Trim, Squeeze, Blank, Tokens, IsSqueezed, IsTrimmed, DuplicateKey;
    if Normalize(raw).Ok? {
      NormalizedShape(raw);
      TrimKeepsTokens(raw);
      SqueezeKeepsTokens(Spaces, Trim(raw));
    }
  }
}
