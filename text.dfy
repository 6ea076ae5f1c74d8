/** The few Python string operations the ingestion scripts and the forum rely on:
    str.strip() without arguments, str.lower(), the substring test `needle in hay`
    and str.split(sep) with a one-character separator. */
module Text {

  /** Python's str.isspace() on one character: exactly the characters that
      str.strip() without arguments removes. */
  predicate IsSpace(c: char)
  {
    || ('\U{9}' <= c <= '\U{D}')
    || ('\U{1C}' <= c <= '\U{20}')
    || c == '\U{85}' || c == '\U{A0}' || c == '\U{1680}'
    || ('\U{2000}' <= c <= '\U{200A}')
    || c == '\U{2028}' || c == '\U{2029}' || c == '\U{202F}' || c == '\U{205F}' || c == '\U{3000}'
  }

  predicate AllSpace(s: string)
  {
    forall k :: 0 <= k < |s| ==> IsSpace(s[k])
  }

  /** A string with no whitespace at either end. */
  predicate IsStripped(s: string)
  {
    s == [] || (!IsSpace(s[0]) && !IsSpace(s[|s| - 1]))
  }

  /** str.strip(): s without its leading and trailing whitespace. */
  function Strip(s: string): (r: string)
    ensures IsStripped(r)
    decreases |s|
  {
    if s != [] && IsSpace(s[0]) then Strip(s[1..])
    else if s != [] && IsSpace(s[|s| - 1]) then Strip(s[..|s| - 1])
    else s
  }

  /** What str.strip() removes is whitespace, on both sides: s is the
      stripped string with whitespace before and after it. */
  lemma {:induction false} StripRemovesOnlySpaces(s: string) returns (pre: string, post: string)
    ensures s == pre + Strip(s) + post
    ensures AllSpace(pre) && AllSpace(post)
    decreases |s|
  {
    if s != [] && IsSpace(s[0]) {
      var pre', post' := StripRemovesOnlySpaces(s[1..]);
      assert Strip(s) == Strip(s[1..]);
      pre, post := [s[0]] + pre', post';
      assert AllSpace(pre) by {
        assert forall k :: 1 <= k < |pre| ==> pre[k] == pre'[k - 1];
      }
      calc {
        s;
        [s[0]] + s[1..];
        [s[0]] + (pre' + Strip(s) + post');
        ([s[0]] + pre') + Strip(s) + post';
      }
    } else if s != [] && IsSpace(s[|s| - 1]) {
      var pre', post' := StripRemovesOnlySpaces(s[..|s| - 1]);
      assert Strip(s) == Strip(s[..|s| - 1]);
      pre, post := pre', post' + [s[|s| - 1]];
      assert AllSpace(post) by {
        assert forall k :: 0 <= k < |post'| ==> post[k] == post'[k];
      }
      calc {
        s;
        s[..|s| - 1] + [s[|s| - 1]];
        (pre' + Strip(s) + post') + [s[|s| - 1]];
        pre' + Strip(s) + (post' + [s[|s| - 1]]);
      }
    } else {
      pre, post := [], [];
      assert s == pre + s + post;
    }
  }

  /** Strip is determined by its contract: whatever whitespace surrounds a
      stripped core, str.strip() returns exactly that core. */
  lemma {:induction false} StripUnique(s: string, pre: string, core: string, post: string)
    requires s == pre + core + post
    requires AllSpace(pre) && AllSpace(post) && IsStripped(core)
    ensures Strip(s) == core
    decreases |s|
  {
    if pre != [] {
      assert s[0] == pre[0];
      assert s[1..] == pre[1..] + core + post;
      StripUnique(s[1..], pre[1..], core, post);
    } else if core == [] && post != [] {
      assert s == post && s[0] == post[0];
      assert s[1..] == [] + [] + post[1..];
      StripUnique(s[1..], [], [], post[1..]);
    } else if post != [] {
      assert s[0] == core[0];
      assert s[|s| - 1] == post[|post| - 1];
      assert s[..|s| - 1] == [] + core + post[..|post| - 1];
      StripUnique(s[..|s| - 1], [], core, post[..|post| - 1]);
    } else {
      assert s == core;
    }
  }

  /** A stripped string is its own strip. */
  lemma StripStripped(s: string)
    requires IsStripped(s)
    ensures Strip(s) == s
  {
    assert s == [] + s + [];
    StripUnique(s, [], s, []);
  }

  /** Stripping twice is stripping once. */
  lemma StripIdempotent(s: string)
    ensures Strip(Strip(s)) == Strip(s)
  {
    StripStripped(Strip(s));
  }

  /** str.lower() on one character. Modelled for ASCII and Latin-1 capitals. */
  function LowerChar(c: char): char
  {
    if IsUpper(c) then
      (c as int + 32) as char
    else
      c
  }

  predicate IsUpper(c: char)
  {
    'A' <= c <= 'Z' || ('\U{C0}' <= c <= '\U{DE}' && c != '\U{D7}')
  }

  /** str.lower(): same length, no capital letter survives, each capital
      becomes its lower-case letter 32 code points further on, and every
      other character is left as it is. */
  function Lower(s: string): (r: string)
    ensures |r| == |s|
    ensures forall k :: 0 <= k < |r| ==> !IsUpper(r[k])
    ensures forall k :: 0 <= k < |s| && IsUpper(s[k]) ==> r[k] as int == s[k] as int + 32
    ensures forall k :: 0 <= k < |s| && !IsUpper(s[k]) ==> r[k] == s[k]
  {
    seq(|s|, k requires 0 <= k < |s| => LowerChar(s[k]))
  }

  lemma LowerIdempotent(s: string)
    ensures Lower(Lower(s)) == Lower(s)
  {
  }

  /** Lower-casing keeps a stripped string stripped. */
  lemma LowerKeepsStripped(s: string)
    requires IsStripped(s)
    ensures IsStripped(Lower(s))
  {
  }

  /** needle occurs in hay starting at position i. */
  predicate OccursAt(needle: string, hay: string, i: nat)
  {
    i + |needle| <= |hay| && hay[i..i + |needle|] == needle
  }

  /** The meaning of Python's `needle in hay` on strings. */
  ghost predicate IsInfix(needle: string, hay: string)
  {
    exists i: nat :: OccursAt(needle, hay, i)
  }

  /** `needle in hay`, computed by trying each start position in turn. */
  predicate Contains(needle: string, hay: string)
    decreases |hay|
  {
    needle <= hay || (hay != [] && Contains(needle, hay[1..]))
  }

  /** An occurrence in hay[1..] is an occurrence in hay one position later. */
  lemma OccursShift(needle: string, hay: string, i: nat)
    requires hay != []
    ensures OccursAt(needle, hay[1..], i) <==> OccursAt(needle, hay, i + 1)
  {
    if i + 1 + |needle| <= |hay| {
      assert hay[1..][i..i + |needle|] == hay[i + 1..i + 1 + |needle|];
    }
  }

  /** The position-by-position search finds the needle exactly when it occurs. */
  lemma {:induction false} ContainsIsInfix(needle: string, hay: string)
    ensures Contains(needle, hay) <==> IsInfix(needle, hay)
    decreases |hay|
  {
    if needle <= hay {
      assert OccursAt(needle, hay, 0);
    } else if hay == [] {
      assert !IsInfix(needle, hay);
    } else {
      ContainsIsInfix(needle, hay[1..]);
      if IsInfix(needle, hay[1..]) {
        var i: nat :| OccursAt(needle, hay[1..], i);
        OccursShift(needle, hay, i);
      }
      if IsInfix(needle, hay) {
        var i: nat :| OccursAt(needle, hay, i);
        assert i != 0;
        OccursShift(needle, hay, i - 1);
      }
    }
  }

  /** An empty search term occurs in every text. */
  lemma EmptyIsInfix(hay: string)
    ensures IsInfix([], hay)
  {
    assert OccursAt([], hay, 0);
  }

  /** str.split(sep): the pieces between occurrences of sep, always at least one. */
  function Split(s: string, sep: char): (r: seq<string>)
    ensures |r| >= 1
    ensures forall k :: 0 <= k < |r| ==> sep !in r[k]
    ensures Join(r, sep) == s
    decreases |s|
  {
    if s == [] then
      [""]
    else if s[0] == sep then
      [""] + Split(s[1..], sep)
    else
      var rest := Split(s[1..], sep);
      [[s[0]] + rest[0]] + rest[1..]
  }

  /** sep.join(pieces) */
  function Join(pieces: seq<string>, sep: char): string
  {
    if |pieces| == 0 then ""
    else if |pieces| == 1 then pieces[0]
    else pieces[0] + [sep] + Join(pieces[1..], sep)
  }

  /** Splitting undoes joining when no piece holds the separator. */
  lemma {:induction false} SplitJoin(pieces: seq<string>, sep: char)
    requires |pieces| >= 1
    requires forall k :: 0 <= k < |pieces| ==> sep !in pieces[k]
    ensures Split(Join(pieces, sep), sep) == pieces
    decreases |pieces|, |pieces[0]|
  {
    var p := pieces[0];
    if p == [] {
      if |pieces| > 1 {
        assert Join(pieces, sep) == [sep] + Join(pieces[1..], sep);
        SplitJoin(pieces[1..], sep);
      }
    } else {
      var shorter := pieces[0 := p[1..]];
      assert Join(pieces, sep) == [p[0]] + Join(shorter, sep) by {
        if |pieces| > 1 {
          assert shorter[1..] == pieces[1..];
        }
      }
      assert sep !in shorter[0] by {
        assert forall c :: c in p[1..] ==> c in p;
      }
      SplitJoin(shorter, sep);
      assert p == [p[0]] + shorter[0];
      assert pieces == [p] + shorter[1..];
    }
  }
}
