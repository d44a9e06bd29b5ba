/**
 * Markdown escaping helpers of the bot (`escape_markdown_v1` and
 * `escape_markdown_v2`): each special character gets one backslash in front.
 * The source applies `str.replace` once per special character; the model does
 * the same and proves the result equal to the per-character transform.
 */
module Escaping {

  /** Characters escaped for Telegram's legacy Markdown. */
  const V1Specials: seq<char> := ['_', '*', '`', '[']

  /** Characters escaped for Telegram's MarkdownV2. */
  const V2Specials: seq<char> :=
    ['_', '*', '[', ']', '(', ')', '~', '`', '>', '#', '+', '-', '=', '|', '{', '}', '.', '!']

  /** The characters of `cs` as a set. */
  function AsSet(cs: seq<char>): set<char>
  {
    set c | c in cs
  }

  /** The per-character specification: a backslash before every character of `specials`. */
  function EscapeEach(specials: set<char>, s: string): (r: string)
  {
    if s == [] then [] else (if s[0] in specials then ['\\', s[0]] else [s[0]]) + EscapeEach(specials, s[1..])
  }

  /** `s.replace(c, '\\' + c)`. */
  function Replace(s: string, c: char): (r: string)
  {
    if s == [] then [] else (if s[0] == c then ['\\', c] else [s[0]]) + Replace(s[1..], c)
  }

  /** Occurrences in `s` of characters from `specials`. */
  function CountSpecials(specials: set<char>, s: string): (n: nat)
    ensures n <= |s|
  {
    if s == [] then 0 else (if s[0] in specials then 1 else 0) + CountSpecials(specials, s[1..])
  }

  lemma {:induction false} ReplaceAppend(a: string, b: string, c: char)
    ensures Replace(a + b, c) == Replace(a, c) + Replace(b, c)
    decreases |a|
  {
    if a != [] {
      assert (a + b)[1..] == a[1..] + b;
      ReplaceAppend(a[1..], b, c);
    } else {
      assert a + b == b;
    }
  }

  /**
   * Replacing one more character, absent from the escaped set and not the
   * backslash itself, extends the per-character escape by that character.
   */
  lemma {:induction false} ReplaceExtendsEscape(specials: set<char>, s: string, c: char)
    requires c !in specials && c != '\\'
    ensures Replace(EscapeEach(specials, s), c) == EscapeEach(specials + {c}, s)
    decreases |s|
  {
    if s != [] {
      var head := if s[0] in specials then ['\\', s[0]] else [s[0]];
      ReplaceAppend(head, EscapeEach(specials, s[1..]), c);
      ReplaceExtendsEscape(specials, s[1..], c);
      if s[0] in specials {
        assert Replace(head, c) == ['\\', s[0]] by {
          assert head[1..] == [s[0]];
        }
      } else {
        assert Replace(head, c) == (if s[0] == c then ['\\', c] else [s[0]]) by {
          assert head[1..] == [];
        }
      }
    }
  }

  /**
   * The source's loop: one `replace` per special character, in order. When
   * the specials are distinct and exclude the backslash, this is exactly the
   * per-character escape.
   */
  method EscapeSequentially(text: string, specials: seq<char>) returns (escaped: string)
    requires forall i, j :: 0 <= i < j < |specials| ==> specials[i] != specials[j]
    requires '\\' !in specials
    ensures escaped == EscapeEach(AsSet(specials), text)
  {
    escaped := text;
    EscapeNothing(text);
    assert AsSet(specials[..0]) == {};
    for i := 0 to |specials|
      invariant escaped == EscapeEach(AsSet(specials[..i]), text)
    {
      var done := AsSet(specials[..i]);
      assert specials[i] !in done;
      ReplaceExtendsEscape(done, text, specials[i]);
      escaped := Replace(escaped, specials[i]);
      assert (AsSet(specials[..i + 1])) == done + {specials[i]} by {
        assert specials[..i + 1] == specials[..i] + [specials[i]];
      }
    }
    assert specials[..|specials|] == specials;
  }

  lemma {:induction false} EscapeNothing(s: string)
    ensures EscapeEach({}, s) == s
    decreases |s|
  {
    if s != [] {
      EscapeNothing(s[1..]);
      assert [s[0]] + s[1..] == s;
    }
  }

  /** `escape_markdown_v1`. */
  method EscapeMarkdownV1(text: string) returns (escaped: string)
    ensures escaped == EscapeEach(AsSet(V1Specials), text)
    ensures |escaped| == |text| + CountSpecials(AsSet(V1Specials), text)
  {
    escaped := EscapeSequentially(text, V1Specials);
    EscapedLength(AsSet(V1Specials), text);
  }

  /** `escape_markdown_v2`. */
  method EscapeMarkdownV2(text: string) returns (escaped: string)
    ensures escaped == EscapeEach(AsSet(V2Specials), text)
    ensures |escaped| == |text| + CountSpecials(AsSet(V2Specials), text)
  {
    escaped := EscapeSequentially(text, V2Specials);
    EscapedLength(AsSet(V2Specials), text);
  }

  /** Exactly one character is added per special character. */
  lemma {:induction false} EscapedLength(specials: set<char>, s: string)
    ensures |EscapeEach(specials, s)| == |s| + CountSpecials(specials, s)
    decreases |s|
  {
    if s != [] {
      EscapedLength(specials, s[1..]);
    }
  }

  /** Drops the backslash in front of each escaped special character. */
  function Unescape(specials: set<char>, r: string): (s: string)
    decreases |r|
  {
    if r == [] then []
    else if |r| >= 2 && r[0] == '\\' && r[1] in specials then [r[1]] + Unescape(specials, r[2..])
    else [r[0]] + Unescape(specials, r[1..])
  }

  /**
   * Escaping loses nothing: unescaping gives the text back, so every other
   * character passes through unchanged and in order.
   */
  lemma {:induction false} UnescapeEscape(specials: set<char>, s: string)
    requires '\\' !in specials
    ensures Unescape(specials, EscapeEach(specials, s)) == s
    decreases |s|
  {
    if s != [] {
      var r := EscapeEach(specials, s);
      UnescapeEscape(specials, s[1..]);
      if s[0] in specials {
        assert r[2..] == EscapeEach(specials, s[1..]);
      } else {
        assert r[1..] == EscapeEach(specials, s[1..]);
        if s[0] == '\\' && |r| >= 2 {
          var t := EscapeEach(specials, s[1..]);
          assert r[1] == t[0];
          assert t[0] == '\\' || t[0] == s[1];
          assert r[1] !in specials by {
            if s[1] in specials {
              assert t[0] == '\\';
            }
          }
        }
      }
      assert [s[0]] + s[1..] == s;
    }
  }

  /** In the escaped text every special character sits right after a backslash. */
  lemma {:induction false} SpecialsArePreceded(specials: set<char>, s: string, i: nat)
    requires '\\' !in specials
    requires i < |EscapeEach(specials, s)| && EscapeEach(specials, s)[i] in specials
    ensures i > 0 && EscapeEach(specials, s)[i - 1] == '\\'
    decreases |s|
  {
    var r := EscapeEach(specials, s);
    var head := if s[0] in specials then ['\\', s[0]] else [s[0]];
    assert r == head + EscapeEach(specials, s[1..]);
    if i >= |head| {
      SpecialsArePreceded(specials, s[1..], i - |head|);
      if i - |head| > 0 {
        assert r[i - 1] == EscapeEach(specials, s[1..])[i - |head| - 1];
      }
    }
  }
}
