/**
 * Categories of js/app.js: the seed list and the record `addCategory`
 * appends, whose id is a slug of the name:
 * `name.toLowerCase().replace(/\s+/g, '-')`.
 */
module Categories {

  datatype Category = Category(id: string, name: string, icon: string, color: string)

  /** The reserved id that means "no category filter". */
  const AllId: string := "all"

  /** The categories used when the store holds none. */
  const DefaultCategories: seq<Category> := [
    Category("all", "All Tasks", "A", "#c7b299"),
    Category("work", "Work", "W", "#4caf50"),
    Category("personal", "Personal", "P", "#2196f3"),
    Category("shopping", "Shopping", "S", "#ff9800"),
    Category("health", "Health", "H", "#f44336")
  ]

  ghost predicate UniqueCategoryIds(cs: seq<Category>) {
    forall i, j :: 0 <= i < j < |cs| ==> cs[i].id != cs[j].id
  }

  /** The seed list starts with the reserved category and has distinct ids. */
  lemma DefaultCategoriesWellFormed()
    ensures |DefaultCategories| == 5 && DefaultCategories[0].id == AllId
    ensures UniqueCategoryIds(DefaultCategories)
  {
  }

  /**
   * The characters JavaScript's `\s` matches: the ASCII whitespace controls,
   * the space, and the Unicode space separators, line and paragraph
   * separators and the byte-order mark.
   */
  predicate IsWhitespace(c: char) {
    || c == '\t' || c == '\n' || c == '\U{000B}' || c == '\U{000C}' || c == '\r' || c == ' '
    || c == '\U{00A0}' || c == '\U{1680}' || ('\U{2000}' <= c <= '\U{200A}')
    || c == '\U{2028}' || c == '\U{2029}' || c == '\U{202F}' || c == '\U{205F}'
    || c == '\U{3000}' || c == '\U{FEFF}'
  }

  predicate IsUpper(c: char) {
    'A' <= c <= 'Z'
  }

  function LowerChar(c: char): char {
    if IsUpper(c) then (c as int - 'A' as int + 'a' as int) as char else c
  }

  /** `toLowerCase`, restricted to the ASCII letters. */
  function Lower(s: string): (r: string)
    ensures |r| == |s|
  {
    if s == [] then [] else [LowerChar(s[0])] + Lower(s[1..])
  }

  ghost predicate NoWhitespace(s: string) {
    forall i :: 0 <= i < |s| ==> !IsWhitespace(s[i])
  }

  ghost predicate NoUpper(s: string) {
    forall i :: 0 <= i < |s| ==> !IsUpper(s[i])
  }

  /** What is left of `s` after its leading run of whitespace. */
  function SkipWhitespace(s: string): (r: string)
    ensures |r| <= |s|
    ensures s != [] && IsWhitespace(s[0]) ==> |r| < |s|
    ensures r == [] || !IsWhitespace(r[0])
  {
    if s != [] && IsWhitespace(s[0]) then SkipWhitespace(s[1..]) else s
  }

  lemma {:induction false} SkipIsSuffix(s: string)
    ensures SkipWhitespace(s) == s[|s| - |SkipWhitespace(s)|..]
  {
    if s != [] && IsWhitespace(s[0]) {
      SkipIsSuffix(s[1..]);
    }
  }

  /** `replace(/\s+/g, '-')`: each maximal run of whitespace becomes one hyphen. */
  function CollapseWhitespace(s: string): (r: string)
    ensures |r| <= |s|
    decreases |s|
  {
    if s == [] then []
    else if IsWhitespace(s[0]) then "-" + CollapseWhitespace(SkipWhitespace(s))
    else [s[0]] + CollapseWhitespace(s[1..])
  }

  /** No whitespace survives the collapse. */
  lemma {:induction false} CollapseNoWhitespace(s: string)
    ensures NoWhitespace(CollapseWhitespace(s))
    decreases |s|
  {
    if s != [] {
      var c := if IsWhitespace(s[0]) then '-' else s[0];
      var rest := if IsWhitespace(s[0]) then SkipWhitespace(s) else s[1..];
      var tail := CollapseWhitespace(rest);
      CollapseNoWhitespace(rest);
      assert CollapseWhitespace(s) == [c] + tail;
      assert !IsWhitespace(c);
      assert forall i :: 1 <= i < |tail| + 1 ==> ([c] + tail)[i] == tail[i - 1];
    }
  }

  /** The id `addCategory` derives from a category name. */
  function Slug(name: string): (r: string)
    ensures |r| <= |name|
    ensures r == [] <==> name == []
  {
    CollapseWhitespace(Lower(name))
  }

  /** The record `addCategory` appends; the fields given come after the id, as in `{ id, ...category }`. */
  function NewCategory(name: string, icon: string, color: string): (c: Category)
    ensures c.id == Slug(name) && c.name == name && c.icon == icon && c.color == color
  {
    Category(Slug(name), name, icon, color)
  }

  lemma {:induction false} LowerNoUpper(s: string)
    ensures NoUpper(Lower(s))
  {
    if s != [] {
      LowerNoUpper(s[1..]);
    }
  }

  lemma {:induction false} LowerKeepsWhitespace(s: string, i: nat)
    requires i < |s|
    ensures IsWhitespace(Lower(s)[i]) <==> IsWhitespace(s[i])
  {
    if i > 0 {
      LowerKeepsWhitespace(s[1..], i - 1);
    }
  }

  lemma {:induction false} LowerOfLower(s: string)
    requires NoUpper(s)
    ensures Lower(s) == s
  {
    if s != [] {
      LowerOfLower(s[1..]);
    }
  }

  lemma {:induction false} LowerConcat(a: string, b: string)
    ensures Lower(a + b) == Lower(a) + Lower(b)
  {
    if a != [] {
      assert (a + b)[1..] == a[1..] + b;
      LowerConcat(a[1..], b);
      assert Lower(a + b) == [LowerChar(a[0])] + Lower(a[1..] + b);
    } else {
      assert a + b == b;
    }
  }

  lemma {:induction false} CollapseNoUpper(s: string)
    requires NoUpper(s)
    ensures NoUpper(CollapseWhitespace(s))
    decreases |s|
  {
    if s != [] {
      if IsWhitespace(s[0]) {
        SkipIsSuffix(s);
        CollapseNoUpper(SkipWhitespace(s));
      } else {
        CollapseNoUpper(s[1..]);
      }
    }
  }

  lemma {:induction false} CollapseWithoutWhitespace(s: string)
    requires NoWhitespace(s)
    ensures CollapseWhitespace(s) == s
  {
    if s != [] {
      CollapseWithoutWhitespace(s[1..]);
    }
  }

  /** A slug is lower-case and holds no whitespace. */
  lemma SlugShape(name: string)
    ensures NoWhitespace(Slug(name)) && NoUpper(Slug(name))
    ensures |Slug(name)| <= |name|
  {
    LowerNoUpper(name);
    CollapseNoUpper(Lower(name));
    CollapseNoWhitespace(Lower(name));
  }

  /** A name without whitespace slugs to its lower-case form. */
  lemma SlugWithoutWhitespace(name: string)
    requires NoWhitespace(name)
    ensures Slug(name) == Lower(name)
  {
    forall i | 0 <= i < |name| ensures !IsWhitespace(Lower(name)[i]) {
      LowerKeepsWhitespace(name, i);
    }
    CollapseWithoutWhitespace(Lower(name));
  }

  /** Slugging a slug changes nothing. */
  lemma SlugIdempotent(name: string)
    ensures Slug(Slug(name)) == Slug(name)
  {
    var s := Slug(name);
    SlugShape(name);
    LowerOfLower(s);
    CollapseWithoutWhitespace(s);
  }

  /** Text ending in a non-space character is collapsed independently of what follows. */
  lemma {:induction false} CollapseConcat(a: string, b: string)
    requires a == [] || !IsWhitespace(a[|a| - 1])
    ensures CollapseWhitespace(a + b) == CollapseWhitespace(a) + CollapseWhitespace(b)
    decreases |a|
  {
    if a != [] {
      if IsWhitespace(a[0]) {
        var rest := SkipWhitespace(a);
        SkipConcat(a, b);
        SkipIsSuffix(a);
        assert rest[|rest| - 1] == a[|a| - 1];
        CollapseConcat(rest, b);
        assert CollapseWhitespace(a + b) == ['-'] + CollapseWhitespace(rest + b);
        assert CollapseWhitespace(a) == ['-'] + CollapseWhitespace(rest);
      } else {
        assert (a + b)[1..] == a[1..] + b;
        CollapseConcat(a[1..], b);
        assert CollapseWhitespace(a + b) == [a[0]] + CollapseWhitespace(a[1..] + b);
      }
    } else {
      assert a + b == b;
    }
  }

  /** Skipping whitespace stops inside `a` when `a` ends in a non-space character. */
  lemma {:induction false} SkipConcat(a: string, b: string)
    requires a != [] && !IsWhitespace(a[|a| - 1])
    ensures SkipWhitespace(a) != []
    ensures SkipWhitespace(a + b) == SkipWhitespace(a) + b
  {
    if IsWhitespace(a[0]) {
      assert |a| > 1;
      assert (a + b)[1..] == a[1..] + b;
      SkipConcat(a[1..], b);
    }
  }

  /** A non-empty run of whitespace followed by a non-space character collapses to one hyphen. */
  lemma {:induction false} CollapseRun(w: string, b: string)
    requires w != [] && forall i :: 0 <= i < |w| ==> IsWhitespace(w[i])
    requires b == [] || !IsWhitespace(b[0])
    ensures CollapseWhitespace(w + b) == "-" + CollapseWhitespace(b)
  {
    SkipRun(w, b);
  }

  lemma {:induction false} SkipRun(w: string, b: string)
    requires forall i :: 0 <= i < |w| ==> IsWhitespace(w[i])
    requires b == [] || !IsWhitespace(b[0])
    ensures SkipWhitespace(w + b) == b
  {
    if w != [] {
      assert (w + b)[1..] == w[1..] + b;
      SkipRun(w[1..], b);
    } else {
      assert w + b == b;
    }
  }

  /**
   * The slug of two words joined by a whitespace run is the slugs of the words
   * joined by one hyphen.
   */
  lemma SlugJoin(a: string, w: string, b: string)
    requires a == [] || !IsWhitespace(a[|a| - 1])
    requires w != [] && forall i :: 0 <= i < |w| ==> IsWhitespace(w[i])
    requires b == [] || !IsWhitespace(b[0])
    ensures Slug(a + w + b) == Slug(a) + "-" + Slug(b)
  {
    var la, lw, lb := Lower(a), Lower(w), Lower(b);
    LowerEnds(a, w, b);
    calc {
      Slug(a + w + b);
      { assert a + w + b == a + (w + b); }
      CollapseWhitespace(Lower(a + (w + b)));
      { LowerConcat(a, w + b); LowerConcat(w, b); }
      CollapseWhitespace(la + (lw + lb));
      { CollapseConcat(la, lw + lb); }
      CollapseWhitespace(la) + CollapseWhitespace(lw + lb);
      { CollapseRun(lw, lb); }
      CollapseWhitespace(la) + ("-" + CollapseWhitespace(lb));
      Slug(a) + "-" + Slug(b);
    }
  }

  lemma LowerEnds(a: string, w: string, b: string)
    requires a == [] || !IsWhitespace(a[|a| - 1])
    requires w != [] && forall i :: 0 <= i < |w| ==> IsWhitespace(w[i])
    requires b == [] || !IsWhitespace(b[0])
    ensures Lower(a) == [] || !IsWhitespace(Lower(a)[|a| - 1])
    ensures Lower(w) != [] && forall i :: 0 <= i < |w| ==> IsWhitespace(Lower(w)[i])
    ensures Lower(b) == [] || !IsWhitespace(Lower(b)[0])
  {
    if a != [] {
      LowerKeepsWhitespace(a, |a| - 1);
    }
    forall i | 0 <= i < |w| ensures IsWhitespace(Lower(w)[i]) {
      LowerKeepsWhitespace(w, i);
    }
    if b != [] {
      LowerKeepsWhitespace(b, 0);
    }
  }

  /** "Travel" slugs to "travel". */
  lemma SlugOneWord()
    ensures Slug("Travel") == "travel"
  {
    assert Lower("Travel") == "travel";
    CollapseWithoutWhitespace("travel");
  }

  /** Two words separated by one space slug to their lower-case forms joined by a hyphen. */
  lemma SlugTwoWordsJoin(a: string, b: string)
    requires a != [] && b != [] && NoWhitespace(a) && NoWhitespace(b)
    ensures Slug(a + " " + b) == Lower(a) + "-" + Lower(b)
  {
    SlugJoin(a, " ", b);
    SlugWithoutWhitespace(a);
    SlugWithoutWhitespace(b);
  }

  /** Letters and the few signs between 'A' and 'z' are not whitespace. */
  lemma LettersNoWhitespace(s: string)
    requires forall i :: 0 <= i < |s| ==> 'A' <= s[i] <= 'z'
    ensures NoWhitespace(s)
  {
  }

  /** The two words of "Travel Plans": no whitespace, and their lower-case forms. */
  lemma TravelPlansWords()
    ensures NoWhitespace("Travel") && NoWhitespace("Plans")
    ensures Lower("Travel") == "travel" && Lower("Plans") == "plans"
  {
    LettersNoWhitespace("Travel");
    LettersNoWhitespace("Plans");
    assert Lower("Travel") == "travel";
    assert Lower("Plans") == "plans";
  }

  /** "Travel Plans" slugs to "travel-plans". */
  lemma SlugTwoWords()
    ensures Slug("Travel Plans") == "travel-plans"
  {
    TravelPlansWords();
    SlugTwoWordsJoin("Travel", "Plans");
    assert "Travel" + " " + "Plans" == "Travel Plans";
    assert "travel" + "-" + "plans" == "travel-plans";
  }

  /** A category named "All" gets the reserved id. */
  lemma SlugReservedCollision()
    ensures Slug("All") == AllId
  {
    SlugWithoutWhitespace("All");
  }
}
