/**
 * Column-name normalisation of `create_database`: every raw CSV header is
 * stripped of surrounding whitespace, lower-cased and has each space replaced
 * by an underscore, `c.strip().lower().replace(" ", "_")`, in list order.
 */
module ColumnNames {

  /** Python's `str.isspace` for one character: the code points `strip()` removes. */
  predicate IsSpace(c: char)
  {
    var n := c as int;
    (0x09 <= n <= 0x0D) || (0x1C <= n <= 0x20) || n == 0x85 || n == 0xA0 ||
    n == 0x1680 || (0x2000 <= n <= 0x200A) || n == 0x2028 || n == 0x2029 ||
    n == 0x202F || n == 0x205F || n == 0x3000
  }

  predicate IsUpper(c: char)
  {
    'A' <= c <= 'Z'
  }

  /**
   * What `IsSpace` covers: the ASCII blanks and the no-break space are
   * whitespace; the underscore, letters and digits are not.
   */
  lemma SpaceClasses(c: char)
    ensures c == ' ' || c == '\t' || c == '\n' || c == '\r' || c == '\U{A0}' ==> IsSpace(c)
    ensures IsSpace(c) ==> c != '_' && !IsUpper(c) && !('a' <= c <= 'z') && !('0' <= c <= '9')
  {
  }

  /** ASCII lower-casing of one character. */
  function LowerChar(c: char): (d: char)
    ensures !IsUpper(d)
    ensures IsUpper(c) ==> d as int == c as int + 32
    ensures !IsUpper(c) ==> d == c
    ensures IsSpace(d) == IsSpace(c)
  {
    if IsUpper(c) then (c as int + 32) as char else c
  }

  /** A name with no whitespace at either end (the empty name included). */
  ghost predicate IsTrimmed(t: string)
  {
    t != [] ==> !IsSpace(t[0]) && !IsSpace(t[|t| - 1])
  }

  /**
   * `t` is what remains of `s` after removing the whitespace run of length `i`
   * at its start and the whitespace run after position `i + |t|`, and `t`
   * itself is trimmed.
   */
  ghost predicate StripsAt(s: string, t: string, i: nat)
  {
    i + |t| <= |s| && t == s[i..i + |t|] && IsTrimmed(t) &&
    (forall k :: 0 <= k < i ==> IsSpace(s[k])) &&
    (forall k :: i + |t| <= k < |s| ==> IsSpace(s[k]))
  }

  /** Reference meaning of `s.strip()`: the maximal whitespace-free-edged middle slice. */
  ghost predicate IsStripOf(s: string, t: string)
  {
    exists i: nat :: StripsAt(s, t, i)
  }

  /** Where `s.strip()` starts: the first position from `i` on that is not whitespace. */
  function SkipLeading(s: string, i: nat): (j: nat)
    requires i <= |s|
    ensures i <= j <= |s|
    ensures forall k :: i <= k < j ==> IsSpace(s[k])
    ensures j < |s| ==> !IsSpace(s[j])
    decreases |s| - i
  {
    if i < |s| && IsSpace(s[i]) then SkipLeading(s, i + 1) else i
  }

  /** Where `s.strip()` ends: the whitespace run just before `j` goes back no further than `i`. */
  function SkipTrailing(s: string, i: nat, j: nat): (e: nat)
    requires i <= j <= |s|
    ensures i <= e <= j
    ensures forall k :: e <= k < j ==> IsSpace(s[k])
    ensures e > i ==> !IsSpace(s[e - 1])
  {
    if j > i && IsSpace(s[j - 1]) then SkipTrailing(s, i, j - 1) else j
  }

  /** `s.strip()`: the slice between the leading and the trailing whitespace. */
  function Strip(s: string): (r: string)
    ensures IsTrimmed(r)
    ensures |r| <= |s|
  {
    var i := SkipLeading(s, 0);
    var e := SkipTrailing(s, i, |s|);
    s[i..e]
  }

  /** `Strip` meets the reference meaning of strip. */
  lemma StripMeaning(s: string)
    ensures IsStripOf(s, Strip(s))
  {
    var i := SkipLeading(s, 0);
    var e := SkipTrailing(s, i, |s|);
    assert StripsAt(s, s[i..e], i);
  }

  /** `s.lower()` on ASCII letters: each character is lower-cased on its own. */
  function Lower(s: string): (r: string)
    ensures |r| == |s|
    ensures forall k {:trigger r[k]} :: 0 <= k < |s| ==> r[k] == LowerChar(s[k])
  {
    seq(|s|, k requires 0 <= k < |s| => LowerChar(s[k]))
  }

  /** `s.replace(" ", "_")`: no space is left, and nothing else changes. */
  function ReplaceSpaces(s: string): (r: string)
    ensures |r| == |s|
    ensures forall k {:trigger r[k]} :: 0 <= k < |s| ==> r[k] == if s[k] == ' ' then '_' else s[k]
    ensures ' ' !in r
  {
    seq(|s|, k requires 0 <= k < |s| => if s[k] == ' ' then '_' else s[k])
  }

  /** The normal form every stored column name has. */
  ghost predicate IsNormal(t: string)
  {
    IsTrimmed(t) && ' ' !in t && forall k :: 0 <= k < |t| ==> !IsUpper(t[k])
  }

  /** `c.strip().lower().replace(" ", "_")` for one header. */
  function Normalize(s: string): (r: string)
    ensures |r| <= |s|
    ensures ' ' !in r
    ensures IsTrimmed(r)
    ensures forall k :: 0 <= k < |r| ==> !IsUpper(r[k])
  {
    var t := Strip(s);
    CaseAndSpacesKeepTrimmed(t);
    ReplaceSpaces(Lower(t))
  }

  /** Lower-casing and then replacing spaces keeps a trimmed name trimmed. */
  lemma CaseAndSpacesKeepTrimmed(t: string)
    requires IsTrimmed(t)
    ensures IsTrimmed(ReplaceSpaces(Lower(t)))
  {
    var l := Lower(t);
    if l != [] {
      assert !IsSpace(l[0]) && !IsSpace(l[|l| - 1]);
    }
  }

  /** The list comprehension of line 18: one normalised name per raw header, in order. */
  function NormalizeAll(cols: seq<string>): (r: seq<string>)
    ensures |r| == |cols|
    ensures forall i :: 0 <= i < |cols| ==> r[i] == Normalize(cols[i])
  {
    seq(|cols|, i requires 0 <= i < |cols| => Normalize(cols[i]))
  }

  /** A trimmed name is its own strip. */
  lemma StripTrimmed(s: string)
    requires IsTrimmed(s)
    ensures Strip(s) == s
  {
    assert SkipLeading(s, 0) == 0;
    assert SkipTrailing(s, 0, |s|) == |s|;
  }

  /** Only one slice of `s` meets the reference meaning of strip, so `Strip` is it. */
  lemma StripUnique(s: string, t: string)
    requires IsStripOf(s, t)
    ensures t == Strip(s)
  {
    var r := Strip(s);
    StripMeaning(s);
    var i: nat :| StripsAt(s, t, i);
    var j: nat :| StripsAt(s, r, j);
    SameStrip(s, t, i, r, j);
  }

  lemma SameStrip(s: string, t: string, i: nat, u: string, j: nat)
    requires StripsAt(s, t, i) && StripsAt(s, u, j)
    ensures t == u
  {
    if t != [] && u != [] {
      assert s[i] == t[0] && s[j] == u[0];
      assert i == j;
      assert s[i + |t| - 1] == t[|t| - 1] && s[j + |u| - 1] == u[|u| - 1];
      assert |t| == |u|;
    }
  }

  /** The names `Normalize` leaves unchanged are exactly the names in normal form. */
  lemma NormalizeFixedPoint(t: string)
    ensures Normalize(t) == t <==> IsNormal(t)
  {
    if IsNormal(t) {
      NormalFormUnchanged(t);
    }
  }

  lemma NormalFormUnchanged(t: string)
    requires IsNormal(t)
    ensures Normalize(t) == t
  {
    StripTrimmed(t);
    assert Lower(t) == t by {
      forall k | 0 <= k < |t| ensures Lower(t)[k] == t[k] {
        assert !IsUpper(t[k]);
      }
    }
    assert ReplaceSpaces(t) == t by {
      forall k | 0 <= k < |t| ensures ReplaceSpaces(t)[k] == t[k] {
        assert t[k] != ' ';
      }
    }
  }

  /** Normalising an already-normalised name returns it unchanged. */
  lemma NormalizeIdempotent(s: string)
    ensures Normalize(Normalize(s)) == Normalize(s)
  {
    NormalizeFixedPoint(Normalize(s));
  }

  /** Normalising a whole header list twice is the same as once. */
  lemma NormalizeAllIdempotent(cols: seq<string>)
    ensures NormalizeAll(NormalizeAll(cols)) == NormalizeAll(cols)
  {
    forall i | 0 <= i < |cols| ensures NormalizeAll(NormalizeAll(cols))[i] == NormalizeAll(cols)[i] {
      NormalizeIdempotent(cols[i]);
    }
  }

  /** A header with no surrounding whitespace is only lower-cased and underscored. */
  lemma NormalizeTrimmedHeader(s: string, lowered: string, r: string)
    requires IsTrimmed(s)
    requires lowered == Lower(s)
    requires r == ReplaceSpaces(lowered)
    ensures Normalize(s) == r
  {
    StripTrimmed(s);
  }

  /** Normalisation does not deduplicate: two different headers may collide. */
  lemma NormalizeCollides()
    ensures "Cooking Time" != "cooking_time"
    ensures NormalizeAll(["Cooking Time", "cooking_time"]) == ["cooking_time", "cooking_time"]
  {
    CookingTimeHeader();
    NormalizedCookingTimeHeader();
    NormalizeTwo("Cooking Time", "cooking_time", "cooking_time", "cooking_time");
  }

  /** The rename of a two-column header row, from the names of its columns. */
  lemma NormalizeTwo(a: string, b: string, x: string, y: string)
    requires Normalize(a) == x && Normalize(b) == y
    ensures NormalizeAll([a, b]) == [x, y]
  {
    NormalizeAllOf([a, b], [x, y]);
  }

  /** The rename of a three-column header row, from the names of its columns. */
  lemma NormalizeThree(a: string, b: string, c: string, x: string, y: string, z: string)
    requires Normalize(a) == x && Normalize(b) == y && Normalize(c) == z
    ensures NormalizeAll([a, b, c]) == [x, y, z]
  {
    NormalizeAllOf([a, b, c], [x, y, z]);
  }

  /** The rename of a header row is fixed by the normalised name of each column. */
  lemma NormalizeAllOf(cols: seq<string>, names: seq<string>)
    requires |names| == |cols|
    requires forall i :: 0 <= i < |cols| ==> Normalize(cols[i]) == names[i]
    ensures NormalizeAll(cols) == names
  {
    var r := NormalizeAll(cols);
    assert forall i :: 0 <= i < |cols| ==> r[i] == names[i];
  }

  lemma CookingTimeHeader()
    ensures Normalize("Cooking Time") == "cooking_time"
  {
    NormalizeTrimmedHeader("Cooking Time", "cooking time", "cooking_time");
  }

  lemma NormalizedCookingTimeHeader()
    ensures Normalize("cooking_time") == "cooking_time"
  {
    NormalFormUnchanged("cooking_time");
  }

  /** Every header that is not already in normal form collides with its own normalisation. */
  lemma NormalizeCollidesWithImage(s: string)
    requires !IsNormal(s)
    ensures s != Normalize(s)
    ensures Normalize(s) == Normalize(Normalize(s))
  {
    NormalizeFixedPoint(s);
    NormalizeIdempotent(s);
  }

  lemma RecipeNameHeader()
    ensures Normalize("Recipe Name") == "recipe_name"
  {
    NormalizeTrimmedHeader("Recipe Name", "recipe name", "recipe_name");
  }

  lemma CuisineHeader()
    ensures Normalize("Cuisine") == "cuisine"
  {
    NormalizeTrimmedHeader("Cuisine", "cuisine", "cuisine");
  }

  lemma CookingTimeMinutesHeader()
    ensures Normalize("Cooking Time Minutes") == "cooking_time_minutes"
  {
    NormalizeTrimmedHeader("Cooking Time Minutes", "cooking time minutes", "cooking_time_minutes");
  }

  /** The header row of the sample recipes CSV after normalisation. */
  lemma NormalizeRecipeHeaders()
    ensures NormalizeAll(["Recipe Name", "Cuisine", "Cooking Time Minutes"])
         == ["recipe_name", "cuisine", "cooking_time_minutes"]
  {
    RecipeNameHeader();
    CuisineHeader();
    CookingTimeMinutesHeader();
    NormalizeThree("Recipe Name", "Cuisine", "Cooking Time Minutes",
                   "recipe_name", "cuisine", "cooking_time_minutes");
  }
}
