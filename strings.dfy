/**
  The string operations of Go's `strings` package that the generator and the
  request handler rely on (Split, TrimSpace, ReplaceAll), plus the substring
  predicates used to state what a rendered User-Agent contains and a reader
  for its product tokens ("name/version", section 10.1.5 of RFC 9110).
 */
module Strings {

  import opened Wrappers

  predicate IsDigit(c: char) { '0' <= c <= '9' }

  predicate IsUpper(c: char) { 'A' <= c <= 'Z' }

  /** `sub` occurs in `s` starting at index `i`. */
  predicate OccursAt(s: string, sub: string, i: int) {
    0 <= i <= |s| - |sub| && s[i..i + |sub|] == sub
  }

  /** `sub` occurs somewhere in `s`. */
  predicate Contains(s: string, sub: string) {
    exists i | 0 <= i <= |s| - |sub| :: OccursAt(s, sub, i)
  }

  predicate HasPrefix(s: string, prefix: string) {
    |prefix| <= |s| && s[..|prefix|] == prefix
  }

  predicate HasSuffix(s: string, suffix: string) {
    |suffix| <= |s| && s[|s| - |suffix|..] == suffix
  }

  lemma ContainsEnd(a: string, sub: string)
    ensures Contains(a + sub, sub)
  {
    assert OccursAt(a + sub, sub, |a|);
  }

  lemma ContainsExtend(s: string, t: string, sub: string)
    requires Contains(s, sub)
    ensures Contains(s + t, sub)
  {
    var i :| 0 <= i <= |s| - |sub| && OccursAt(s, sub, i);
    assert (s + t)[i..i + |sub|] == s[i..i + |sub|];
    assert OccursAt(s + t, sub, i);
  }

  /** The pieces written one after another, as Sprintf fills a template. */
  function Concat(pieces: seq<string>): string {
    if pieces == [] then [] else Concat(pieces[..|pieces| - 1]) + pieces[|pieces| - 1]
  }

  lemma ConcatSnoc(pieces: seq<string>, last: string)
    ensures Concat(pieces + [last]) == Concat(pieces) + last
  {
    assert (pieces + [last])[..|pieces|] == pieces;
  }

  /** Every piece of a template occurs in the filled template. */
  lemma {:induction false} ConcatContains(pieces: seq<string>, k: nat)
    requires k < |pieces|
    ensures Contains(Concat(pieces), pieces[k])
  {
    var front := pieces[..|pieces| - 1];
    if k == |pieces| - 1 {
      ContainsEnd(Concat(front), pieces[k]);
    } else {
      ConcatContains(front, k);
      ContainsExtend(Concat(front), pieces[|pieces| - 1], pieces[k]);
    }
  }

  /** A filled template ends with its last piece. */
  lemma ConcatSuffix(pieces: seq<string>)
    requires pieces != []
    ensures HasSuffix(Concat(pieces), pieces[|pieces| - 1])
  {
  }

  // ---------------------------------------------------------------------------
  // strings.Split with a one-character separator

  /**
    The pieces of `s` between occurrences of `sep`, as Go's strings.Split
    returns them: empty pieces are kept, and the empty string gives one
    empty piece.
   */
  function Split(s: string, sep: char): (parts: seq<string>)
    ensures |parts| >= 1
    ensures forall i :: 0 <= i < |parts| ==> sep !in parts[i]
  {
    if s == [] then [[]]
    else
      var rest := Split(s[1..], sep);
      if s[0] == sep then [[]] + rest
      else [[s[0]] + rest[0]] + rest[1..]
  }

  /** strings.Join with a one-character separator. */
  function Join(parts: seq<string>, sep: char): string {
    if parts == [] then []
    else if |parts| == 1 then parts[0]
    else parts[0] + [sep] + Join(parts[1..], sep)
  }

  /** A join is at least as long as its first piece. */
  lemma JoinLength(parts: seq<string>, sep: char)
    requires parts != []
    ensures |Join(parts, sep)| >= |parts[0]|
  {
  }

  /** Joining the pieces again gives back the original string. */
  lemma {:induction false} JoinSplit(s: string, sep: char)
    ensures Join(Split(s, sep), sep) == s
  {
    if s != [] {
      var rest := Split(s[1..], sep);
      JoinSplit(s[1..], sep);
      if s[0] == sep {
        assert Split(s, sep) == [[]] + rest;
        assert ([[]] + rest)[1..] == rest;
        assert s == [sep] + s[1..];
      } else {
        JoinPrepend(s[0], rest, sep);
        assert s == [s[0]] + s[1..];
      }
    }
  }

  /** Putting a character in front of the first piece puts it in front of the join. */
  lemma JoinPrepend(c: char, parts: seq<string>, sep: char)
    requires parts != []
    ensures Join([[c] + parts[0]] + parts[1..], sep) == [c] + Join(parts, sep)
  {
    if |parts| > 1 {
      assert ([[c] + parts[0]] + parts[1..])[1..] == parts[1..];
    }
  }


  /** Splitting pieces joined by a separator they do not contain gives the pieces back. */
  lemma {:induction false} SplitJoin(parts: seq<string>, sep: char)
    requires parts != []
    requires forall i :: 0 <= i < |parts| ==> sep !in parts[i]
    ensures Split(Join(parts, sep), sep) == parts
  {
    SplitWithoutSep(parts[0], sep);
    if |parts| > 1 {
      var rest := parts[1..];
      SplitJoin(rest, sep);
      SplitAt(parts[0], sep, Join(rest, sep));
      assert parts == [parts[0]] + rest;
    }
  }

  /** A string without the separator is one piece. */
  lemma {:induction false} SplitWithoutSep(s: string, sep: char)
    requires sep !in s
    ensures Split(s, sep) == [s]
  {
    if s != [] {
      SplitWithoutSep(s[1..], sep);
      assert s == [s[0]] + s[1..];
    }
  }

  /** A last word without the separator ends the pieces. */
  lemma SplitLastWord(a: string, sep: char, w: string)
    requires sep !in w
    ensures Split(a + [sep] + w, sep) == Split(a, sep) + [w]
  {
    SplitAt(a, sep, w);
    SplitWithoutSep(w, sep);
  }
  /** Two separator-free words, the second padded with one space on each side, split into the first and the padded second. */
  lemma SplitPadded(a: string, sep: char, b: string)
    requires sep !in a && sep != ' ' && sep !in b
    ensures Split(a + [sep, ' '] + b + [' '], sep) == [a, [' '] + b + [' ']]
  {
    var padded := [' '] + b + [' '];
    assert a + [sep, ' '] + b + [' '] == a + [sep] + padded;
    SplitWithoutSep(a, sep);
    SplitLastWord(a, sep, padded);
  }


  /** Splitting distributes over a separator between two strings. */
  lemma {:induction false} SplitAt(a: string, sep: char, b: string)
    ensures Split(a + [sep] + b, sep) == Split(a, sep) + Split(b, sep)
  {
    var s := a + [sep] + b;
    if a == [] {
      assert s[1..] == b;
    } else {
      assert s[0] == a[0];
      assert s[1..] == a[1..] + [sep] + b;
      SplitAt(a[1..], sep, b);
    }
  }

  /** Pieces made of digits join into a string of digits and separators. */
  lemma {:induction false} JoinDigits(parts: seq<string>, sep: char)
    requires forall i, j :: 0 <= i < |parts| && 0 <= j < |parts[i]| ==> IsDigit(parts[i][j])
    ensures forall k :: 0 <= k < |Join(parts, sep)| ==> IsDigit(Join(parts, sep)[k]) || Join(parts, sep)[k] == sep
  {
    if |parts| > 1 {
      JoinDigits(parts[1..], sep);
      var s := Join(parts, sep);
      assert s == parts[0] + [sep] + Join(parts[1..], sep);
      forall k | 0 <= k < |s| ensures IsDigit(s[k]) || s[k] == sep {
        if k < |parts[0]| {
          assert s[k] == parts[0][k];
        } else if k > |parts[0]| {
          assert s[k] == Join(parts[1..], sep)[k - |parts[0]| - 1];
        }
      }
    } else if |parts| == 1 {
      assert Join(parts, sep) == parts[0];
    }
  }

  // ---------------------------------------------------------------------------
  // strings.TrimSpace

  /** unicode.IsSpace: the Unicode White_Space characters. */
  predicate IsSpace(c: char) {
    c == ' ' || c == '\t' || c == '\n' || c == '\r' || c == '\U{000B}' || c == '\U{000C}'
    || c == '\U{0085}' || c == '\U{00A0}' || c == '\U{1680}'
    || ('\U{2000}' <= c <= '\U{200A}')
    || c == '\U{2028}' || c == '\U{2029}' || c == '\U{202F}' || c == '\U{205F}' || c == '\U{3000}'
  }

  /**
    strings.TrimSpace: `s` without its leading and trailing white space.
    Dropping one space at a time from either end gives the same string as
    dropping the leading run and then the trailing run.
   */
  function TrimSpace(s: string): string
    decreases |s|
  {
    if s != [] && IsSpace(s[0]) then TrimSpace(s[1..])
    else if s != [] && IsSpace(s[|s| - 1]) then TrimSpace(s[..|s| - 1])
    else s
  }

  /** `r` sits in `s` at offset `a` with only white space before and after it. */
  predicate TrimmedAt(s: string, r: string, a: nat) {
    && a + |r| <= |s|
    && s[a..a + |r|] == r
    && (forall i :: 0 <= i < a ==> IsSpace(s[i]))
    && (forall i :: a + |r| <= i < |s| ==> IsSpace(s[i]))
  }

  /**
    TrimSpace removes white space and nothing else: its result is the part
    of `s` left after white space is cut from both ends, and that part
    neither starts nor ends with white space.
   */
  lemma {:induction false} TrimSpaceTrims(s: string)
    ensures exists a: nat | a <= |s| :: TrimmedAt(s, TrimSpace(s), a)
    ensures TrimSpace(s) == [] || (!IsSpace(TrimSpace(s)[0]) && !IsSpace(TrimSpace(s)[|TrimSpace(s)| - 1]))
    decreases |s|
  {
    var r := TrimSpace(s);
    if s != [] && IsSpace(s[0]) {
      TrimSpaceTrims(s[1..]);
      var a: nat :| a <= |s[1..]| && TrimmedAt(s[1..], r, a);
      TrimmedAtSpaceBefore(s, r, a);
    } else if s != [] && IsSpace(s[|s| - 1]) {
      TrimSpaceTrims(s[..|s| - 1]);
      var a: nat :| a <= |s[..|s| - 1]| && TrimmedAt(s[..|s| - 1], r, a);
      TrimmedAtSpaceAfter(s, r, a);
    } else {
      assert s[0..|s|] == s;
      assert TrimmedAt(s, r, 0);
    }
  }

  /** A leading space widens the white space before the trimmed part. */
  lemma TrimmedAtSpaceBefore(s: string, r: string, a: nat)
    requires s != [] && IsSpace(s[0]) && TrimmedAt(s[1..], r, a)
    ensures TrimmedAt(s, r, a + 1)
  {
    assert s[a + 1..a + 1 + |r|] == s[1..][a..a + |r|];
    assert forall i :: 1 <= i < a + 1 ==> s[i] == s[1..][i - 1];
  }

  /** A trailing space widens the white space after the trimmed part. */
  lemma TrimmedAtSpaceAfter(s: string, r: string, a: nat)
    requires s != [] && IsSpace(s[|s| - 1]) && TrimmedAt(s[..|s| - 1], r, a)
    ensures TrimmedAt(s, r, a)
  {
    assert s[a..a + |r|] == s[..|s| - 1][a..a + |r|];
  }

  /** A string with a character outside white space does not trim to nothing. */
  lemma TrimSpaceKeepsText(s: string, i: nat)
    requires i < |s| && !IsSpace(s[i])
    ensures TrimSpace(s) != []
  {
    TrimSpaceTrims(s);
  }

  /** A string that neither starts nor ends with white space is its own TrimSpace. */
  lemma TrimSpaceUnchanged(s: string)
    requires s == [] || (!IsSpace(s[0]) && !IsSpace(s[|s| - 1]))
    ensures TrimSpace(s) == s
  {
  }

  /** One space on each side of a trimmed string is trimmed away. */
  lemma TrimPadded(s: string)
    requires s == [] || (!IsSpace(s[0]) && !IsSpace(s[|s| - 1]))
    ensures TrimSpace([' '] + s + [' ']) == s
  {
    var padded := [' '] + s + [' '];
    assert padded[1..] == s + [' '];
    assert TrimSpace(padded) == TrimSpace(s + [' ']);
    assert (s + [' '])[..|s|] == s;
    assert TrimSpace(s + [' ']) == TrimSpace(s);
    TrimSpaceUnchanged(s);
  }

  // ---------------------------------------------------------------------------
  // strings.ReplaceAll with one-character old and new strings

  /** `s` with every occurrence of `from` replaced by `to`. */
  function ReplaceAll(s: string, from: char, to: char): (r: string)
    ensures |r| == |s|
    ensures forall i :: 0 <= i < |s| ==> r[i] == if s[i] == from then to else s[i]
    ensures from != to ==> from !in r
  {
    if s == [] then []
    else [if s[0] == from then to else s[0]] + ReplaceAll(s[1..], from, to)
  }

  // ---------------------------------------------------------------------------
  // Product tokens

  /** Template pieces that put a space before each of `words`. */
  function Spaced(words: seq<string>): (pieces: seq<string>)
    ensures |pieces| == 2 * |words|
  {
    if words == [] then [] else Spaced(words[..|words| - 1]) + [" ", words[|words| - 1]]
  }

  lemma SpacedTwo(a: string, b: string)
    ensures Spaced([a, b]) == [" ", a, " ", b]
  {
    assert [a][..0] == [];
    assert Spaced([a]) == [] + [" ", a];
    assert [a, b][..1] == [a];
    assert Spaced([a, b]) == Spaced([a]) + [" ", b];
  }

  lemma SpacedThree(a: string, b: string, c: string)
    ensures Spaced([a, b, c]) == [" ", a, " ", b, " ", c]
  {
    SpacedTwo(a, b);
    assert [a, b, c][..2] == [a, b];
    assert Spaced([a, b, c]) == Spaced([a, b]) + [" ", c];
  }

  /** Words written after a template's front, each after a space, are its last words. */
  lemma {:induction false} SpacedWords(front: seq<string>, words: seq<string>)
    requires forall i :: 0 <= i < |words| ==> ' ' !in words[i]
    ensures Split(Concat(front + Spaced(words)), ' ') == Split(Concat(front), ' ') + words
  {
    if words != [] {
      var init := words[..|words| - 1];
      var last := words[|words| - 1];
      SpacedWords(front, init);
      var ps := front + Spaced(init);
      assert front + Spaced(words) == ps + [" ", last];
      ConcatSpacedSnoc(ps, last);
      SplitLastWord(Concat(ps), ' ', last);
      assert words == init + [last];
    } else {
      assert front + Spaced(words) == front;
    }
  }

  /** Appending a space piece and a word piece appends a space and the word. */
  lemma ConcatSpacedSnoc(pieces: seq<string>, word: string)
    ensures Concat(pieces + [" ", word]) == Concat(pieces) + [' '] + word
  {
    assert pieces + [" ", word] == (pieces + [" "]) + [word];
    ConcatSnoc(pieces + [" "], word);
    ConcatSnoc(pieces, " ");
  }

  /**
    The version of the last space-separated word of the form `name/version`
    in `ua`: the product a reader of the User-Agent would find for `name`.
   */
  function ProductVersion(ua: string, name: string): Option<string> {
    LastProduct(Split(ua, ' '), name)
  }

  function LastProduct(words: seq<string>, name: string): Option<string> {
    if words == [] then None
    else
      var last := words[|words| - 1];
      if HasPrefix(last, name + "/") then Some(last[|name| + 1..])
      else LastProduct(words[..|words| - 1], name)
  }

  /** A word that starts with another letter does not name the product. */
  lemma NotProduct(w: string, name: string)
    requires w != [] && name != [] && w[0] != name[0]
    ensures !HasPrefix(w, name + "/")
  {
  }

  /** The product found for `name` is the one in the last word that names it. */
  lemma {:induction false} LastProductAt(words: seq<string>, name: string, i: nat)
    requires i < |words| && HasPrefix(words[i], name + "/")
    requires forall j :: i < j < |words| ==> !HasPrefix(words[j], name + "/")
    ensures LastProduct(words, name) == Some(words[i][|name| + 1..])
  {
    if i < |words| - 1 {
      var front := words[..|words| - 1];
      assert front[i] == words[i];
      LastProductAt(front, name, i);
    }
  }

  /** A product among the later words hides every earlier one. */
  lemma {:induction false} LastProductAppend(front: seq<string>, back: seq<string>, name: string)
    requires LastProduct(back, name).Some?
    ensures LastProduct(front + back, name) == LastProduct(back, name)
  {
    var all := front + back;
    assert back != [];
    assert all[|all| - 1] == back[|back| - 1];
    if !HasPrefix(back[|back| - 1], name + "/") {
      assert all[..|all| - 1] == front + back[..|back| - 1];
      LastProductAppend(front, back[..|back| - 1], name);
    }
  }
}
