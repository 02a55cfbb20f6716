/** The path hasher of BHD5 archives (`Util.ComputeHash`): a path is
    normalised (trimmed, backslashes turned into slashes, lower-cased, given
    a leading slash) and its characters are folded into a polynomial hash,
    32 bits wide with multiplier 37 for the older archive variants and 64
    bits wide with multiplier 0x85 from Elden Ring on. */
module PathHash {
  import opened Types
  import BHD5

  const PRIME: nat := 37
  const PRIME64: nat := 0x85

  // ---------------------------------------------------------------------
  // Normalisation
  // ---------------------------------------------------------------------

  /** The characters .NET's `Char.IsWhiteSpace` accepts (and `Trim` removes). */
  predicate IsWhiteSpace(c: char)
  {
    var k := c as int;
    (0x09 <= k <= 0x0D) || k == 0x20 || k == 0x85 || k == 0xA0 || k == 0x1680
    || (0x2000 <= k <= 0x200A) || k == 0x2028 || k == 0x2029 || k == 0x202F
    || k == 0x205F || k == 0x3000
  }

  predicate AllWhiteSpace(s: string)
  {
    forall i :: 0 <= i < |s| ==> IsWhiteSpace(s[i])
  }

  /** Neither the first nor the last character is white space. */
  predicate NoEdgeWhiteSpace(s: string)
  {
    s == [] || (!IsWhiteSpace(s[0]) && !IsWhiteSpace(s[|s| - 1]))
  }

  predicate IsUpper(c: char)
  {
    'A' <= c <= 'Z'
  }

  /** `ToLowerInvariant` on one character, restricted to ASCII letters. */
  function LowerChar(c: char): char
  {
    if IsUpper(c) then (c as int + 32) as char else c
  }

  /** `Replace('\\', '/')` on one character. */
  function SlashChar(c: char): char
  {
    if c == '\\' then '/' else c
  }

  /** What normalisation does to a single character. */
  function Canon(c: char): char
  {
    LowerChar(SlashChar(c))
  }

  /** `String.TrimStart()`: drops the leading white space. */
  function TrimStart(s: string): (r: string)
    ensures |r| <= |s| && r == s[|s| - |r|..]
    ensures AllWhiteSpace(s[..|s| - |r|])
    ensures r == [] || !IsWhiteSpace(r[0])
    decreases |s|
  {
    if s != [] && IsWhiteSpace(s[0]) then
      var r := TrimStart(s[1..]);
      assert s[..|s| - |r|] == [s[0]] + s[1..][..|s| - 1 - |r|];
      r
    else s
  }

  /** `String.TrimEnd()`: drops the trailing white space. */
  function TrimEnd(s: string): (r: string)
    ensures |r| <= |s| && r == s[..|r|]
    ensures AllWhiteSpace(s[|r|..])
    ensures r == [] || !IsWhiteSpace(r[|r| - 1])
    decreases |s|
  {
    if s != [] && IsWhiteSpace(s[|s| - 1]) then
      var r := TrimEnd(s[..|s| - 1]);
      assert s[|r|..] == s[..|s| - 1][|r|..] + [s[|s| - 1]];
      r
    else s
  }

  /** `String.Trim()`. */
  function Trim(s: string): string
  {
    TrimEnd(TrimStart(s))
  }

  /** `Replace('\\', '/')`. */
  function ReplaceBackslashes(s: string): string
  {
    seq(|s|, i requires 0 <= i < |s| => SlashChar(s[i]))
  }

  /** `ToLowerInvariant()` (ASCII letters only). */
  function ToLowerInvariant(s: string): string
  {
    seq(|s|, i requires 0 <= i < |s| => LowerChar(s[i]))
  }

  /** Trimmed, forward slashes only, no upper-case letters. */
  predicate IsCanonical(s: string)
  {
    NoEdgeWhiteSpace(s) && forall i :: 0 <= i < |s| ==> s[i] != '\\' && !IsUpper(s[i])
  }

  /** A string normalisation can produce: rooted and canonical. */
  predicate IsNormalized(s: string)
  {
    |s| > 0 && s[0] == '/' && IsCanonical(s)
  }

  /** The string `ComputeHash` folds: the trimmed, slash-converted,
      lower-cased path, prefixed with `/` when it does not start with one. */
  function Normalize(path: string): (r: string)
    ensures IsNormalized(r)
  {
    var hashable := ToLowerInvariant(ReplaceBackslashes(Trim(path)));
    CanonOfTrimmed(Trim(path));
    RootedIsNormalized(hashable);
    Rooted(hashable)
  }

  /** The string with a `/` prefixed unless it already starts with one. */
  function Rooted(h: string): string
  {
    if |h| > 0 && h[0] == '/' then h else "/" + h
  }

  lemma RootedIsNormalized(h: string)
    requires IsCanonical(h)
    ensures IsNormalized(Rooted(h))
  {
    if !(|h| > 0 && h[0] == '/') {
      var r := "/" + h;
      assert forall i :: 1 <= i < |r| ==> r[i] == h[i - 1];
    }
  }

  /** The character-wise steps turn a trimmed string into a canonical one. */
  lemma CanonOfTrimmed(t: string)
    requires NoEdgeWhiteSpace(t)
    ensures IsCanonical(ToLowerInvariant(ReplaceBackslashes(t)))
  {
    CanonPointwise(t);
  }

  /** What normalisation does to each character: white space stays white
      space, no backslash or upper-case letter survives, only `/` and `\`
      become `/`, and doing it twice is doing it once. */
  lemma CanonChar(c: char)
    ensures IsWhiteSpace(Canon(c)) == IsWhiteSpace(c)
    ensures Canon(c) != '\\' && !IsUpper(Canon(c))
    ensures Canon(c) == '/' <==> (c == '/' || c == '\\')
    ensures Canon(Canon(c)) == Canon(c)
  {
  }

  /** `ToLowerInvariant(ReplaceBackslashes(t))` applies `Canon` to each
      character of `t`. */
  lemma CanonPointwise(t: string)
    ensures |ToLowerInvariant(ReplaceBackslashes(t))| == |t|
    ensures forall i :: 0 <= i < |t| ==> ToLowerInvariant(ReplaceBackslashes(t))[i] == Canon(t[i])
    ensures forall i :: 0 <= i < |t| ==> IsWhiteSpace(Canon(t[i])) == IsWhiteSpace(t[i])
    ensures forall i :: 0 <= i < |t| ==> Canon(t[i]) != '\\' && !IsUpper(Canon(t[i]))
  {
    forall i | 0 <= i < |t|
      ensures IsWhiteSpace(Canon(t[i])) == IsWhiteSpace(t[i])
      ensures Canon(t[i]) != '\\' && !IsUpper(Canon(t[i]))
    {
      CanonChar(t[i]);
    }
  }

  // ---------------------------------------------------------------------
  // Hashing
  // ---------------------------------------------------------------------

  /** The two accumulator widths of `ComputeHash`. */
  datatype Width = Bits32 | Bits64

  /** `game >= BHD5.Game.EldenRing` selects the 64-bit hash. */
  function WidthOf(game: BHD5.Game): Width
  {
    if BHD5.Rank(game) >= BHD5.Rank(BHD5.EldenRing) then Bits64 else Bits32
  }

  function Multiplier(w: Width): nat
  {
    match w
    case Bits32 => PRIME
    case Bits64 => PRIME64
  }

  function Modulus(w: Width): nat
  {
    match w
    case Bits32 => TWO_TO_THE_32
    case Bits64 => TWO_TO_THE_64
  }

  /** The value a character contributes to the fold. */
  function Code(c: char): nat
  {
    c as int
  }

  /** `Aggregate(acc, (i, c) => i * P + c)` in unchecked arithmetic of
      width `w`: a left fold that wraps around at every step. */
  function Fold(w: Width, acc: nat, s: string): (r: nat)
    requires acc < Modulus(w)
    ensures r < Modulus(w)
    decreases |s|
  {
    if s == [] then acc
    else Fold(w, (acc * Multiplier(w) + Code(s[0])) % Modulus(w), s[1..])
  }

  /** `Util.ComputeHash(path, game)`. */
  function ComputeHash(path: string, game: BHD5.Game): (h: U64)
    ensures WidthOf(game) == Bits32 ==> h < TWO_TO_THE_32
  {
    Fold(WidthOf(game), 0, Normalize(path))
  }

  /** Reference definition: the exact integer polynomial
      sum of Code(s[i]) * P^(|s|-1-i), without any wrap-around. */
  function Polynomial(w: Width, s: string): nat
    decreases |s|
  {
    if s == [] then 0
    else Polynomial(w, s[..|s| - 1]) * Multiplier(w) + Code(s[|s| - 1])
  }

  // ---------------------------------------------------------------------
  // Properties of normalisation
  // ---------------------------------------------------------------------

  /** A string without white space at its ends is left alone by `Trim`. */
  lemma TrimOfTrimmed(s: string)
    requires NoEdgeWhiteSpace(s)
    ensures Trim(s) == s
  {
    assert TrimStart(s) == s;
  }

  /** The character-wise steps leave a normalised string alone. */
  lemma CanonOfNormalized(s: string)
    requires IsNormalized(s)
    ensures ToLowerInvariant(ReplaceBackslashes(s)) == s
  {
    CanonPointwise(s);
    var h := ToLowerInvariant(ReplaceBackslashes(s));
    forall i | 0 <= i < |s| ensures h[i] == s[i] {
      assert s[i] != '\\' && !IsUpper(s[i]);
    }
  }

  /** A normalised string is its own normal form. */
  lemma NormalizedIsFixed(s: string)
    requires IsNormalized(s)
    ensures Normalize(s) == s
  {
    TrimOfTrimmed(s);
    CanonOfNormalized(s);
  }

  /** Normalising twice is normalising once. */
  lemma NormalizeIdempotent(path: string)
    ensures Normalize(Normalize(path)) == Normalize(path)
  {
    NormalizedIsFixed(Normalize(path));
  }

  /** Two strings that differ at most in letter case and slash direction. */
  predicate SamePathModuloCaseAndSlashes(a: string, b: string)
  {
    |a| == |b| && forall i :: 0 <= i < |a| ==> Canon(a[i]) == Canon(b[i])
  }

  /** Strings with white space at the same positions are cut at the same
      places by `TrimStart`. */
  lemma {:induction false} TrimStartSameCut(a: string, b: string)
    requires |a| == |b|
    requires forall i :: 0 <= i < |a| ==> IsWhiteSpace(a[i]) == IsWhiteSpace(b[i])
    ensures |TrimStart(a)| == |TrimStart(b)|
    decreases |a|
  {
    if a != [] && IsWhiteSpace(a[0]) {
      TrimStartSameCut(a[1..], b[1..]);
    }
  }

  /** Strings with white space at the same positions are cut at the same
      places by `TrimEnd`. */
  lemma {:induction false} TrimEndSameCut(a: string, b: string)
    requires |a| == |b|
    requires forall i :: 0 <= i < |a| ==> IsWhiteSpace(a[i]) == IsWhiteSpace(b[i])
    ensures |TrimEnd(a)| == |TrimEnd(b)|
    decreases |a|
  {
    if a != [] && IsWhiteSpace(a[|a| - 1]) {
      TrimEndSameCut(a[..|a| - 1], b[..|b| - 1]);
    }
  }

  /** Such strings keep white space at the same positions. */
  lemma SamePathSameWhiteSpace(a: string, b: string)
    requires SamePathModuloCaseAndSlashes(a, b)
    ensures forall i :: 0 <= i < |a| ==> IsWhiteSpace(a[i]) == IsWhiteSpace(b[i])
  {
    forall i | 0 <= i < |a| ensures IsWhiteSpace(a[i]) == IsWhiteSpace(b[i]) {
      CanonChar(a[i]);
      CanonChar(b[i]);
    }
  }

  /** `TrimStart` keeps such strings alike. */
  lemma TrimStartSamePath(a: string, b: string)
    requires SamePathModuloCaseAndSlashes(a, b)
    ensures SamePathModuloCaseAndSlashes(TrimStart(a), TrimStart(b))
  {
    SamePathSameWhiteSpace(a, b);
    TrimStartSameCut(a, b);
    var sa, sb := TrimStart(a), TrimStart(b);
    var lo := |a| - |sa|;
    assert sa == a[lo..] && sb == b[lo..];
    forall k | 0 <= k < |sa| ensures Canon(sa[k]) == Canon(sb[k]) {
      assert sa[k] == a[lo..][k];
      assert sb[k] == b[lo..][k];
    }
  }

  /** `TrimEnd` keeps such strings alike. */
  lemma TrimEndSamePath(a: string, b: string)
    requires SamePathModuloCaseAndSlashes(a, b)
    ensures SamePathModuloCaseAndSlashes(TrimEnd(a), TrimEnd(b))
  {
    SamePathSameWhiteSpace(a, b);
    TrimEndSameCut(a, b);
    var ea, eb := TrimEnd(a), TrimEnd(b);
    forall k | 0 <= k < |ea| ensures Canon(ea[k]) == Canon(eb[k]) {
      assert ea[k] == a[k] && eb[k] == b[k];
    }
  }

  /** Trimming such strings gives such strings. */
  lemma TrimSamePath(a: string, b: string)
    requires SamePathModuloCaseAndSlashes(a, b)
    ensures SamePathModuloCaseAndSlashes(Trim(a), Trim(b))
  {
    TrimStartSamePath(a, b);
    TrimEndSamePath(TrimStart(a), TrimStart(b));
  }

  /** The character-wise steps map such strings to one string. */
  lemma CanonOfSamePath(a: string, b: string)
    requires SamePathModuloCaseAndSlashes(a, b)
    ensures ToLowerInvariant(ReplaceBackslashes(a)) == ToLowerInvariant(ReplaceBackslashes(b))
  {
    CanonPointwise(a);
    CanonPointwise(b);
  }

  /** Paths that differ only in letter case and slash direction normalise
      to the same string. */
  lemma NormalizeIgnoresCaseAndSlashes(a: string, b: string)
    requires SamePathModuloCaseAndSlashes(a, b)
    ensures Normalize(a) == Normalize(b)
  {
    TrimSamePath(a, b);
    CanonOfSamePath(Trim(a), Trim(b));
  }

  lemma {:induction false} TrimStartWhiteSpacePrefix(pre: string, s: string)
    requires AllWhiteSpace(pre)
    ensures TrimStart(pre + s) == TrimStart(s)
    decreases |pre|
  {
    if pre != [] {
      assert (pre + s)[0] == pre[0];
      assert (pre + s)[1..] == pre[1..] + s;
      TrimStartWhiteSpacePrefix(pre[1..], s);
    } else {
      assert pre + s == s;
    }
  }

  lemma {:induction false} TrimEndWhiteSpaceSuffix(s: string, post: string)
    requires AllWhiteSpace(post)
    ensures TrimEnd(s + post) == TrimEnd(s)
    decreases |post|
  {
    if post != [] {
      var last := |post| - 1;
      assert (s + post)[|s + post| - 1] == post[last];
      assert (s + post)[..|s + post| - 1] == s + post[..last];
      TrimEndWhiteSpaceSuffix(s, post[..last]);
    } else {
      assert s + post == s;
    }
  }

  lemma {:induction false} TrimStartAppend(s: string, t: string)
    ensures TrimStart(s + t) == if TrimStart(s) == [] then TrimStart(t) else TrimStart(s) + t
    decreases |s|
  {
    if s == [] {
      assert s + t == t;
    } else if IsWhiteSpace(s[0]) {
      assert (s + t)[0] == s[0];
      assert (s + t)[1..] == s[1..] + t;
      TrimStartAppend(s[1..], t);
    } else {
      assert (s + t)[0] == s[0];
    }
  }

  /** `Trim` removes white space around a string and nothing else. */
  lemma TrimSurroundingWhiteSpace(pre: string, path: string, post: string)
    requires AllWhiteSpace(pre) && AllWhiteSpace(post)
    ensures Trim(pre + path + post) == Trim(path)
  {
    assert pre + path + post == pre + (path + post);
    TrimStartWhiteSpacePrefix(pre, path + post);
    TrimStartAppend(path, post);
    if TrimStart(path) == [] {
      TrimStartWhiteSpacePrefix(post, []);
      assert post + [] == post;
    } else {
      TrimEndWhiteSpaceSuffix(TrimStart(path), post);
    }
  }

  /** White space around a path does not change its normal form. */
  lemma NormalizeIgnoresSurroundingWhiteSpace(pre: string, path: string, post: string)
    requires AllWhiteSpace(pre) && AllWhiteSpace(post)
    ensures Normalize(pre + path + post) == Normalize(path)
  {
    TrimSurroundingWhiteSpace(pre, path, post);
  }

  /** The character-wise steps commute with prefixing a slash. */
  lemma CanonPrependSlash(path: string)
    ensures ToLowerInvariant(ReplaceBackslashes("/" + path)) == "/" + ToLowerInvariant(ReplaceBackslashes(path))
  {
    var rooted := "/" + path;
    CanonPointwise(path);
    CanonPointwise(rooted);
    var h := ToLowerInvariant(ReplaceBackslashes(path));
    var hr := ToLowerInvariant(ReplaceBackslashes(rooted));
    forall k | 0 <= k < |path| ensures hr[k + 1] == h[k] {
      assert rooted[k + 1] == path[k];
    }
    assert hr == "/" + h;
  }

  /** Prefixing a slash to a trimmed path leaves it trimmed. */
  lemma PrependSlashTrimmed(path: string)
    requires NoEdgeWhiteSpace(path)
    ensures NoEdgeWhiteSpace("/" + path)
  {
    if path != [] {
      assert ("/" + path)[|path|] == path[|path| - 1];
    }
  }

  /** On a trimmed path normalisation skips straight to the character-wise
      steps. */
  lemma NormalizeOfTrimmed(t: string)
    requires NoEdgeWhiteSpace(t)
    ensures Normalize(t) == Rooted(ToLowerInvariant(ReplaceBackslashes(t)))
  {
    TrimOfTrimmed(t);
  }

  /** Adding the leading slash that normalisation would add changes nothing. */
  lemma NormalizeAddsMissingSlash(path: string)
    requires path != [] && NoEdgeWhiteSpace(path)
    requires path[0] != '/' && path[0] != '\\'
    ensures Normalize("/" + path) == Normalize(path)
  {
    var h := ToLowerInvariant(ReplaceBackslashes(path));
    assert h[0] != '/' by {
      CanonPointwise(path);
      CanonChar(path[0]);
    }
    NormalizeOfTrimmed(path);
    assert Normalize(path) == "/" + h;
    PrependSlashTrimmed(path);
    NormalizeOfTrimmed("/" + path);
    CanonPrependSlash(path);
    assert Normalize("/" + path) == Rooted("/" + h);
  }

  /** The empty and the all-white-space path normalise to the root. */
  lemma BlankPathIsRoot(path: string)
    requires AllWhiteSpace(path)
    ensures Normalize(path) == "/"
  {
    assert TrimStart(path) == [];
    assert ToLowerInvariant(ReplaceBackslashes(Trim(path))) == [];
  }

  // ---------------------------------------------------------------------
  // Properties of the hash
  // ---------------------------------------------------------------------

  /** Appending a character multiplies and adds, with wrap-around. */
  lemma {:induction false} FoldAppend(w: Width, acc: nat, s: string, c: char)
    requires acc < Modulus(w)
    ensures Fold(w, acc, s + [c]) == (Fold(w, acc, s) * Multiplier(w) + Code(c)) % Modulus(w)
    decreases |s|
  {
    if s != [] {
      assert (s + [c])[1..] == s[1..] + [c];
      FoldAppend(w, (acc * Multiplier(w) + Code(s[0])) % Modulus(w), s[1..], c);
    } else {
      assert [] + [c] == [c];
    }
  }

  /** On a normalised string the hash is the fold itself. */
  lemma HashOfNormalized(s: string, game: BHD5.Game)
    requires IsNormalized(s)
    ensures ComputeHash(s, game) == Fold(WidthOf(game), 0, s)
  {
    NormalizedIsFixed(s);
  }

  /** `H(s + [c]) = (H(s) * P + code(c)) mod 2^w` for the hash as computed
      on a normalised string. */
  lemma HashAppend(path: string, game: BHD5.Game, c: char)
    requires IsNormalized(path + [c])
    requires IsNormalized(path)
    ensures var w := WidthOf(game);
      ComputeHash(path + [c], game) == (ComputeHash(path, game) * Multiplier(w) + Code(c)) % Modulus(w)
  {
    HashOfNormalized(path, game);
    HashOfNormalized(path + [c], game);
    FoldAppend(WidthOf(game), 0, path, c);
  }

  /** Reducing the accumulator before a step does not change the step's
      result modulo 2^w. */
  lemma ModStep(w: Width, x: nat, c: nat)
    ensures ((x % Modulus(w)) * Multiplier(w) + c) % Modulus(w) == (x * Multiplier(w) + c) % Modulus(w)
  {
    var q, r := x / Modulus(w), x % Modulus(w);
    match w
    case Bits32 =>
      assert x == q * TWO_TO_THE_32 + r;
      assert x * PRIME + c == (q * PRIME) * TWO_TO_THE_32 + (r * PRIME + c);
    case Bits64 =>
      assert x == q * TWO_TO_THE_64 + r;
      assert x * PRIME64 + c == (q * PRIME64) * TWO_TO_THE_64 + (r * PRIME64 + c);
  }

  /** The wrapping fold is the exact polynomial reduced modulo 2^w. */
  lemma {:induction false} FoldIsPolynomial(w: Width, s: string)
    ensures Fold(w, 0, s) == Polynomial(w, s) % Modulus(w)
    decreases |s|
  {
    if s != [] {
      var init, c := s[..|s| - 1], s[|s| - 1];
      assert s == init + [c];
      FoldIsPolynomial(w, init);
      FoldAppend(w, 0, init, c);
      ModStep(w, Polynomial(w, init), Code(c));
    }
  }

  /** The hash of a path is the polynomial of its normal form, modulo 2^32
      before Elden Ring and modulo 2^64 from Elden Ring on. */
  lemma HashIsPolynomial(path: string, game: BHD5.Game)
    ensures ComputeHash(path, game) == Polynomial(WidthOf(game), Normalize(path)) % Modulus(WidthOf(game))
    ensures WidthOf(game) == Bits64 <==> game == BHD5.EldenRing
  {
    FoldIsPolynomial(WidthOf(game), Normalize(path));
  }

  /** Paths that differ only in letter case and slash direction hash
      alike. */
  lemma EquivalentPathsHashAlike(a: string, b: string, game: BHD5.Game)
    requires SamePathModuloCaseAndSlashes(a, b)
    ensures ComputeHash(a, game) == ComputeHash(b, game)
  {
    NormalizeIgnoresCaseAndSlashes(a, b);
  }

  /** The root path folds to the code of `/`. */
  lemma FoldOfRoot(w: Width)
    ensures Fold(w, 0, "/") == 47
  {
    assert "/"[1..] == [];
  }

  /** A path whose normal form is the root hashes to 47 at both widths. */
  lemma RootHash(path: string, game: BHD5.Game)
    requires Normalize(path) == "/"
    ensures ComputeHash(path, game) == 47
  {
    FoldOfRoot(WidthOf(game));
  }

  /** The empty or all-white-space path hashes to the code of `/`, 47, at
      both widths. */
  lemma BlankPathHash(path: string, game: BHD5.Game)
    requires AllWhiteSpace(path)
    ensures ComputeHash(path, game) == 47
  {
    BlankPathIsRoot(path);
    RootHash(path, game);
  }

  lemma SpellingsAreSamePath()
    ensures SamePathModuloCaseAndSlashes("/a/B.txt", "/a/b.txt")
    ensures SamePathModuloCaseAndSlashes("\\A\\b.TXT", "/a/b.txt")
  {
  }

  lemma RootedSpellingNormalizesAlike()
    ensures Normalize("/a/b.txt") == Normalize("a/b.txt")
  {
    assert "/" + "a/b.txt" == "/a/b.txt";
    NormalizeAddsMissingSlash("a/b.txt");
  }

  /** The three spellings of one path used as an example of normalisation
      invariance normalise alike. */
  lemma SpellingsNormalizeAlike()
    ensures Normalize("/a/B.txt") == Normalize("a/b.txt")
    ensures Normalize("\\A\\b.TXT") == Normalize("a/b.txt")
  {
    SpellingsAreSamePath();
    NormalizeIgnoresCaseAndSlashes("/a/B.txt", "/a/b.txt");
    NormalizeIgnoresCaseAndSlashes("\\A\\b.TXT", "/a/b.txt");
    RootedSpellingNormalizesAlike();
  }

  /** Three spellings of the same path hash alike at both widths. */
  lemma SpellingsHashAlike(game: BHD5.Game)
    ensures ComputeHash("/a/B.txt", game) == ComputeHash("a/b.txt", game)
    ensures ComputeHash("\\A\\b.TXT", game) == ComputeHash("a/b.txt", game)
  {
    SpellingsNormalizeAlike();
  }
}
