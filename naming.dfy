/**
 * The default local-to-remote key rule of `attr_to_zoho_key`:
 * `name.split('_').map(&:capitalize).join('_')`, with Ruby's own behaviour
 * of `split` (trailing empty fields are dropped) and `capitalize` (first
 * character upper case, the rest lower case).
 */
module Naming {

  const Sep: char := '_'

  /** Ruby's `upcase` on one character (ASCII letters only). */
  function Upcase(c: char): char
  {
    if 'a' <= c <= 'z' then (c as int - 32) as char else c
  }

  /** Ruby's `downcase` on one character (ASCII letters only). */
  function Downcase(c: char): char
  {
    if 'A' <= c <= 'Z' then (c as int + 32) as char else c
  }

  ghost predicate NoSep(w: string)
  {
    forall i :: 0 <= i < |w| ==> w[i] != Sep
  }

  /** `String#capitalize`. */
  function Capitalize(w: string): (r: string)
    ensures |r| == |w|
    ensures NoSep(w) ==> NoSep(r)
  {
    if w == [] then []
    else [Upcase(w[0])] + seq(|w| - 1, i requires 0 <= i < |w| - 1 => Downcase(w[i + 1]))
  }

  /** Capitalizing an already capitalized word changes nothing. */
  lemma CapitalizeIdempotent(w: string)
    ensures Capitalize(Capitalize(w)) == Capitalize(w)
  {
  }

  /** Every field of a split, including the empty ones (`split('_', -1)`). */
  function RawSplit(s: string): (fs: seq<string>)
    ensures |fs| >= 1
    ensures forall i :: 0 <= i < |fs| ==> NoSep(fs[i])
  {
    if s == [] then [[]]
    else if s[0] == Sep then [[]] + RawSplit(s[1..])
    else
      var rest := RawSplit(s[1..]);
      [[s[0]] + rest[0]] + rest[1..]
  }

  /** Ruby drops the empty fields at the end of a split. */
  function DropTrailingEmpty(fs: seq<string>): (r: seq<string>)
    ensures r <= fs
    ensures r != [] ==> r[|r| - 1] != []
    ensures forall i :: |r| <= i < |fs| ==> fs[i] == []
  {
    if fs == [] then []
    else if fs[|fs| - 1] == [] then DropTrailingEmpty(fs[..|fs| - 1])
    else fs
  }

  /** `String#split('_')`. */
  function Split(s: string): seq<string>
  {
    DropTrailingEmpty(RawSplit(s))
  }

  /** `Array#join('_')`. */
  function Join(fs: seq<string>): string
  {
    if fs == [] then []
    else if |fs| == 1 then fs[0]
    else fs[0] + [Sep] + Join(fs[1..])
  }

  function CapitalizeAll(fs: seq<string>): (r: seq<string>)
    ensures |r| == |fs| && forall i :: 0 <= i < |fs| ==> r[i] == Capitalize(fs[i])
  {
    seq(|fs|, i requires 0 <= i < |fs| => Capitalize(fs[i]))
  }

  /** The default remote key of a local attribute name. */
  function DefaultKey(name: string): string
  {
    Join(CapitalizeAll(Split(name)))
  }

  /**
   * The fields a split can produce: none contains the separator, and the
   * last one is not empty.
   */
  ghost predicate SplitShape(fs: seq<string>)
  {
    (forall i :: 0 <= i < |fs| ==> NoSep(fs[i])) && (fs != [] ==> fs[|fs| - 1] != [])
  }

  lemma SplitHasShape(s: string)
    ensures SplitShape(Split(s))
  {
    var raw := RawSplit(s);
    var fs := Split(s);
    assert forall i :: 0 <= i < |fs| ==> fs[i] == raw[i];
  }

  /** Splitting a word that has no separator, followed by anything. */
  lemma {:induction false} RawSplitPrefix(w: string, t: string)
    requires NoSep(w)
    ensures RawSplit(w + t) == [w + RawSplit(t)[0]] + RawSplit(t)[1..]
  {
    var r := RawSplit(t);
    assert r == [r[0]] + r[1..];
    if w == [] {
      assert w + t == t && w + r[0] == r[0];
    } else {
      assert (w + t)[0] == w[0] && (w + t)[1..] == w[1..] + t;
      RawSplitPrefix(w[1..], t);
      assert [w[0]] + (w[1..] + RawSplit(t)[0]) == w + RawSplit(t)[0];
    }
  }

  /** Joining non-empty lists of separator-free fields and splitting again gives them back. */
  lemma {:induction false} RawSplitJoin(fs: seq<string>)
    requires fs != []
    requires forall i :: 0 <= i < |fs| ==> NoSep(fs[i])
    ensures RawSplit(Join(fs)) == fs
  {
    if |fs| == 1 {
      RawSplitPrefix(fs[0], []);
      assert fs[0] + [] == fs[0];
    } else {
      RawSplitJoin(fs[1..]);
      assert Join(fs) == fs[0] + ([Sep] + Join(fs[1..]));
      RawSplitPrefix(fs[0], [Sep] + Join(fs[1..]));
      assert ([Sep] + Join(fs[1..]))[1..] == Join(fs[1..]);
      assert fs[0] + [] == fs[0];
    }
  }

  /** `split` is a left inverse of `join` on the lists that `split` can produce. */
  lemma SplitJoin(fs: seq<string>)
    requires SplitShape(fs)
    ensures Split(Join(fs)) == fs
  {
    if fs != [] {
      RawSplitJoin(fs);
    }
  }

  lemma CapitalizeAllShape(fs: seq<string>)
    requires SplitShape(fs)
    ensures SplitShape(CapitalizeAll(fs))
  {
  }

  /** The default rule is idempotent: a remote key in default form maps to itself. */
  lemma DefaultKeyIdempotent(name: string)
    ensures DefaultKey(DefaultKey(name)) == DefaultKey(name)
  {
    var caps := CapitalizeAll(Split(name));
    SplitHasShape(name);
    CapitalizeAllShape(Split(name));
    SplitJoin(caps);
    assert CapitalizeAll(caps) == caps by {
      forall i | 0 <= i < |caps| ensures Capitalize(caps[i]) == caps[i] {
        CapitalizeIdempotent(Split(name)[i]);
      }
    }
  }

  // ----- A character-by-character description of the default rule -----

  /**
   * The character at position `i` of the default key: a separator stays, a
   * character at the start or right after a separator is upcased, and every
   * other character is downcased.
   */
  function KeyChar(s: string, i: nat): char
    requires i < |s|
  {
    if s[i] == Sep then Sep
    else if i == 0 || s[i - 1] == Sep then Upcase(s[i])
    else Downcase(s[i])
  }

  function PointwiseKey(s: string): (r: string)
    ensures |r| == |s| && forall i :: 0 <= i < |s| ==> r[i] == KeyChar(s, i)
  {
    seq(|s|, i requires 0 <= i < |s| => KeyChar(s, i))
  }

  /** The name without its trailing separators. */
  function StripTrailingSeps(s: string): (r: string)
    ensures r <= s && (r != [] ==> r[|r| - 1] != Sep)
    ensures forall i :: |r| <= i < |s| ==> s[i] == Sep
  {
    if s != [] && s[|s| - 1] == Sep then StripTrailingSeps(s[..|s| - 1]) else s
  }

  lemma CapitalizeIsPointwise(w: string)
    requires NoSep(w)
    ensures Capitalize(w) == PointwiseKey(w)
  {
  }

  /** The position of the first separator. */
  function FirstSep(s: string): (k: nat)
    requires !NoSep(s)
    ensures k < |s| && s[k] == Sep && NoSep(s[..k])
  {
    if s[0] == Sep then 0
    else
      var k := FirstSep(s[1..]);
      assert s[..k + 1] == [s[0]] + s[1..][..k];
      k + 1
  }

  lemma RawSplitAt(s: string, k: nat)
    requires k < |s| && s[k] == Sep && NoSep(s[..k])
    ensures RawSplit(s) == [s[..k]] + RawSplit(s[k + 1..])
  {
    var a, b := s[..k], s[k + 1..];
    assert s == a + ([Sep] + b);
    RawSplitPrefix(a, [Sep] + b);
    assert ([Sep] + b)[1..] == b;
    assert a + [] == a;
  }

  lemma JoinCapitalizedCons(x: string, ys: seq<string>)
    requires ys != []
    ensures Join(CapitalizeAll([x] + ys)) == Capitalize(x) + [Sep] + Join(CapitalizeAll(ys))
  {
    var cs := CapitalizeAll([x] + ys);
    assert cs == [Capitalize(x)] + CapitalizeAll(ys);
    assert cs[1..] == CapitalizeAll(ys);
  }

  lemma PointwiseAt(s: string, k: nat)
    requires k < |s| && s[k] == Sep && NoSep(s[..k])
    ensures PointwiseKey(s) == PointwiseKey(s[..k]) + [Sep] + PointwiseKey(s[k + 1..])
  {
    var a, b := s[..k], s[k + 1..];
    var rhs := PointwiseKey(a) + [Sep] + PointwiseKey(b);
    forall i | 0 <= i < |s| ensures rhs[i] == KeyChar(s, i) {
      if i < k {
        assert s[i] == a[i];
        if i > 0 { assert s[i - 1] == a[i - 1]; }
      } else if i > k {
        assert s[i] == b[i - k - 1];
        if i > k + 1 { assert s[i - 1] == b[i - k - 2]; }
      }
    }
  }

  lemma RawSplitNoSep(w: string)
    requires NoSep(w)
    ensures RawSplit(w) == [w]
  {
    RawSplitPrefix(w, []);
    assert w + [] == w;
  }

  /** Without dropping empty fields, the default rule works character by character. */
  lemma {:induction false} JoinCapitalizedRawSplit(s: string)
    ensures Join(CapitalizeAll(RawSplit(s))) == PointwiseKey(s)
    decreases |s|
  {
    if NoSep(s) {
      RawSplitNoSep(s);
      CapitalizeIsPointwise(s);
    } else {
      var k := FirstSep(s);
      var a, b := s[..k], s[k + 1..];
      calc {
        Join(CapitalizeAll(RawSplit(s)));
        { RawSplitAt(s, k); }
        Join(CapitalizeAll([a] + RawSplit(b)));
        { JoinCapitalizedCons(a, RawSplit(b)); }
        Capitalize(a) + [Sep] + Join(CapitalizeAll(RawSplit(b)));
        { JoinCapitalizedRawSplit(b); CapitalizeIsPointwise(a); }
        PointwiseKey(a) + [Sep] + PointwiseKey(b);
        { PointwiseAt(s, k); }
        PointwiseKey(s);
      }
    }
  }

  /** A name that does not end in a separator has a non-empty last field. */
  lemma {:induction false} RawSplitLastNonEmpty(s: string)
    requires s != [] && s[|s| - 1] != Sep
    ensures RawSplit(s)[|RawSplit(s)| - 1] != []
    decreases |s|
  {
    if |s| > 1 {
      assert s[1..][|s| - 2] == s[|s| - 1];
      RawSplitLastNonEmpty(s[1..]);
    }
  }

  /** A trailing separator adds one empty field at the end. */
  lemma {:induction false} RawSplitAppendSep(t: string)
    ensures RawSplit(t + [Sep]) == RawSplit(t) + [[]]
    decreases |t|
  {
    if t == [] {
      assert [Sep][1..] == [];
    } else {
      assert (t + [Sep])[1..] == t[1..] + [Sep];
      RawSplitAppendSep(t[1..]);
    }
  }

  /** Ruby's edge cases: `''` splits into no fields, and a trailing separator adds none. */
  lemma SplitEdgeCases(t: string)
    ensures Split([]) == [] && DefaultKey([]) == []
    ensures Split(t + [Sep]) == Split(t)
  {
    RawSplitAppendSep(t);
  }

  /** Trailing separators do not change the default key. */
  lemma {:induction false} DefaultKeyIgnoresTrailingSeps(s: string)
    ensures DefaultKey(s) == Join(CapitalizeAll(RawSplit(StripTrailingSeps(s))))
    decreases |s|
  {
    if s != [] && s[|s| - 1] == Sep {
      var t := s[..|s| - 1];
      assert s == t + [Sep];
      RawSplitAppendSep(t);
      assert Split(s) == Split(t);
      DefaultKeyIgnoresTrailingSeps(t);
    } else if s == [] {
      assert CapitalizeAll(RawSplit(s)) == [[]];
    } else {
      RawSplitLastNonEmpty(s);
    }
  }

  /**
   * The default rule, character by character: after dropping trailing
   * separators, each character at the start or after a separator is upcased,
   * every other letter downcased, and separators stay where they are.
   */
  lemma DefaultKeyPointwise(name: string)
    ensures DefaultKey(name) == PointwiseKey(StripTrailingSeps(name))
  {
    DefaultKeyIgnoresTrailingSeps(name);
    JoinCapitalizedRawSplit(StripTrailingSeps(name));
  }

  /** Two words joined by one separator: each word is capitalized on its own. */
  lemma DefaultKeyTwoWords(a: string, b: string)
    requires b != [] && NoSep(a) && NoSep(b)
    ensures DefaultKey(a + [Sep] + b) == Capitalize(a) + [Sep] + Capitalize(b)
  {
    var fs := [a, b];
    assert Join(fs) == a + [Sep] + b by {
      assert fs[1..] == [b];
    }
    SplitJoin(fs);
    var cs := [Capitalize(a), Capitalize(b)];
    assert CapitalizeAll(fs) == cs;
    assert Join(cs) == Capitalize(a) + [Sep] + Capitalize(b) by {
      assert cs[1..] == [Capitalize(b)];
    }
  }

  /** Ruby's `capitalize`: first character upper case, the rest lower case. */
  lemma CapitalizeExamples()
    ensures Capitalize("my") == "My" && Capitalize("string") == "String"
    ensures Capitalize("iD") == "Id"
  {
    var m, s, d := Capitalize("my"), Capitalize("string"), Capitalize("iD");
    assert m[0] == 'M' && m[1] == 'y';
    assert s[0] == 'S' && s[1] == 't' && s[2] == 'r' && s[3] == 'i' && s[4] == 'n' && s[5] == 'g';
    assert d[0] == 'I' && d[1] == 'd';
  }

  /**
   * `my_string` maps to `My_String`. The name is a parameter so that the
   * verifier works from the two-word lemma instead of unfolding the
   * recursive split on a literal.
   */
  lemma ExampleMyString(name: string)
    requires name == "my_string"
    ensures DefaultKey(name) == "My_String"
  {
    assert name == "my" + [Sep] + "string";
    DefaultKeyTwoWords("my", "string");
    CapitalizeExamples();
    SepJoinExample();
  }

  /** The literal step of the example, kept apart from the recursive functions. */
  lemma SepJoinExample()
    ensures "My" + [Sep] + "String" == "My_String"
  {
  }
}
