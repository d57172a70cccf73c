/** The few JavaScript string operations the reply engine relies on,
    stated over Dafny strings (sequences of Unicode scalar values):
    `toLowerCase` (ASCII letters only), `trim`, `includes`, `endsWith`,
    `split` on one separator character, and the length filter the
    reflective echo applies to the pieces of a split. */
module JsString {

  // ---------------------------------------------------------------------
  // toLowerCase
  // ---------------------------------------------------------------------

  predicate IsUpper(c: char) {
    'A' <= c <= 'Z'
  }

  /** ASCII case mapping; every other character is left as it is. */
  function LowerChar(c: char): (r: char)
    ensures !IsUpper(r)
    ensures IsUpper(c) ==> r as int == c as int + 32
    ensures !IsUpper(c) ==> r == c
  {
    if IsUpper(c) then (c as int - 'A' as int + 'a' as int) as char else c
  }

  /** `s.toLowerCase()`: same length, no upper-case letter left, and every
      character that was not an upper-case letter kept in place. */
  function Lower(s: string): (r: string)
    ensures |r| == |s|
    ensures forall i :: 0 <= i < |r| ==> !IsUpper(r[i])
    ensures forall i :: 0 <= i < |s| && !IsUpper(s[i]) ==> r[i] == s[i]
    ensures forall i :: 0 <= i < |s| && IsUpper(s[i]) ==> r[i] as int == s[i] as int + 32
  {
    seq(|s|, i requires 0 <= i < |s| => LowerChar(s[i]))
  }

  /** Lower-casing twice is lower-casing once. */
  lemma LowerIdempotent(s: string)
    ensures Lower(Lower(s)) == Lower(s)
  {
    var l := Lower(s);
    assert forall i :: 0 <= i < |l| ==> Lower(l)[i] == l[i];
  }

  /** A string without upper-case letters is its own lower-case form. */
  lemma LowerOfLower(s: string)
    requires forall i :: 0 <= i < |s| ==> !IsUpper(s[i])
    ensures Lower(s) == s
  {
  }

  // ---------------------------------------------------------------------
  // trim
  // ---------------------------------------------------------------------

  /** The characters `String.prototype.trim` strips: ECMAScript WhiteSpace
      (tab, vertical tab, form feed, space, no-break space, byte order mark
      and the space separators of Unicode category Zs) and LineTerminator
      (line feed, carriage return, line and paragraph separators). */
  predicate IsSpace(c: char) {
    || c == '\t' || c == '\n' || c == '\U{000B}' || c == '\U{000C}' || c == '\r'
    || c == ' ' || c == '\U{00A0}' || c == '\U{1680}'
    || ('\U{2000}' <= c <= '\U{200A}')
    || c == '\U{2028}' || c == '\U{2029}' || c == '\U{202F}' || c == '\U{205F}'
    || c == '\U{3000}' || c == '\U{FEFF}'
  }

  /** Number of white-space characters at the start of `s`. */
  function LeadingSpaces(s: string): (n: nat)
    ensures n <= |s|
    ensures forall i :: 0 <= i < n ==> IsSpace(s[i])
    ensures n < |s| ==> !IsSpace(s[n])
  {
    if s == [] || !IsSpace(s[0]) then 0 else 1 + LeadingSpaces(s[1..])
  }

  /** Where the trailing white space of `s` begins. */
  function ContentEnd(s: string): (n: nat)
    ensures n <= |s|
    ensures forall i :: n <= i < |s| ==> IsSpace(s[i])
    ensures 0 < n ==> !IsSpace(s[n - 1])
  {
    if s == [] || !IsSpace(s[|s| - 1]) then |s| else ContentEnd(s[..|s| - 1])
  }

  /** `s.trim()`: drop the leading, then the trailing white space. */
  function Trim(s: string): string
  {
    var u := s[LeadingSpaces(s)..];
    u[..ContentEnd(u)]
  }

  /** What `trim` keeps is one contiguous block of `s` that neither starts nor
      ends with white space, and all it drops on either side is white space. */
  lemma TrimIsInnerBlock(s: string)
    ensures exists a, b :: 0 <= a <= b <= |s| && Trim(s) == s[a..b]
                         && (forall i :: 0 <= i < a ==> IsSpace(s[i]))
                         && (forall i :: b <= i < |s| ==> IsSpace(s[i]))
    ensures Trim(s) == [] || (!IsSpace(Trim(s)[0]) && !IsSpace(Trim(s)[|Trim(s)| - 1]))
  {
    var a := LeadingSpaces(s);
    var u := s[a..];
    var b := a + ContentEnd(u);
    assert Trim(s) == s[a..b];
    forall i | b <= i < |s| ensures IsSpace(s[i]) {
      assert s[i] == u[i - a];
    }
  }

  /** The trimmed text is empty exactly when the input is all white space. */
  lemma TrimEmptyIffBlank(s: string)
    ensures Trim(s) == [] <==> forall i :: 0 <= i < |s| ==> IsSpace(s[i])
  {
  }

  /** A string with no white space at either end is unchanged by `trim`. */
  lemma TrimNoop(s: string)
    requires s == [] || (!IsSpace(s[0]) && !IsSpace(s[|s| - 1]))
    ensures Trim(s) == s
  {
  }

  /** Trimming twice is trimming once. */
  lemma TrimIdempotent(s: string)
    ensures Trim(Trim(s)) == Trim(s)
  {
    TrimIsInnerBlock(s);
    TrimNoop(Trim(s));
  }

  // ---------------------------------------------------------------------
  // includes and endsWith
  // ---------------------------------------------------------------------

  /** `w` occurs in `t` starting at position `i`. */
  ghost predicate OccursAt(t: string, w: string, i: int) {
    0 <= i <= |t| - |w| && t[i..i + |w|] == w
  }

  /** `w` occurs in `t` as a contiguous block of characters. */
  ghost predicate Occurs(t: string, w: string) {
    exists i :: OccursAt(t, w, i)
  }

  /** `t.includes(w)`, as a left-to-right scan over the start positions. */
  function Includes(t: string, w: string): bool
    decreases |t|
  {
    if |w| > |t| then false
    else if t[..|w|] == w then true
    else Includes(t[1..], w)
  }

  /** The scan finds `w` exactly when `w` occurs somewhere in `t`. */
  lemma {:induction false} IncludesSpec(t: string, w: string)
    ensures Includes(t, w) <==> Occurs(t, w)
    decreases |t|
  {
    if |w| > |t| {
    } else if t[..|w|] == w {
      assert OccursAt(t, w, 0);
    } else {
      IncludesSpec(t[1..], w);
      if Includes(t[1..], w) {
        var i :| OccursAt(t[1..], w, i);
        assert OccursAt(t, w, i + 1);
      }
      if Occurs(t, w) {
        var i :| OccursAt(t, w, i);
        assert OccursAt(t[1..], w, i - 1);
      }
    }
  }

  /** A word containing a character the text lacks cannot occur in the text. */
  lemma AbsentCharRulesOut(t: string, w: string, k: nat)
    requires k < |w| && w[k] !in t
    ensures !Occurs(t, w)
  {
  }

  /** A word whose characters `w[k], w[k+1]` never stand next to each other
      in the text cannot occur in the text. */
  lemma AbsentPairRulesOut(t: string, w: string, k: nat)
    requires k + 1 < |w|
    requires forall i :: 0 <= i < |t| - 1 ==> !(t[i] == w[k] && t[i + 1] == w[k + 1])
    ensures !Occurs(t, w)
  {
    forall i | 0 <= i <= |t| - |w| ensures !OccursAt(t, w, i) {
      assert t[i..i + |w|][k] == t[i + k] && t[i..i + |w|][k + 1] == t[i + k + 1];
    }
  }

  /** `t.endsWith(s)`. */
  predicate EndsWith(t: string, s: string) {
    |s| <= |t| && t[|t| - |s|..] == s
  }

  // ---------------------------------------------------------------------
  // split and filter
  // ---------------------------------------------------------------------

  /** `s.split(sep)` for a one-character separator: every occurrence of
      `sep` cuts, so neighbouring or outer separators give empty pieces, and
      the empty string gives one empty piece. */
  function Split(s: string, sep: char): (r: seq<string>)
    ensures |r| >= 1
    decreases |s|
  {
    if s == [] then [""]
    else
      var rest := Split(s[1..], sep);
      if s[0] == sep then [""] + rest
      else [[s[0]] + rest[0]] + rest[1..]
  }

  /** `ps.join(sep)`, the inverse of `Split`. */
  function Join(ps: seq<string>, sep: char): string
    requires |ps| >= 1
  {
    if |ps| == 1 then ps[0] else ps[0] + [sep] + Join(ps[1..], sep)
  }

  /** Splitting loses nothing: joining the pieces back gives the input. */
  lemma {:induction false} JoinSplit(s: string, sep: char)
    ensures Join(Split(s, sep), sep) == s
    decreases |s|
  {
    if s != [] {
      var rest := Split(s[1..], sep);
      JoinSplit(s[1..], sep);
      if s[0] != sep {
        if |rest| == 1 {
        } else {
          assert Join(rest, sep) == rest[0] + [sep] + Join(rest[1..], sep);
          assert ([s[0]] + rest[0]) + [sep] + Join(rest[1..], sep) == [s[0]] + Join(rest, sep);
        }
      }
      assert s == [s[0]] + s[1..];
    }
  }

  /** No piece of a split contains the separator. */
  lemma {:induction false} SplitPiecesFree(s: string, sep: char, w: string)
    requires w in Split(s, sep)
    ensures sep !in w
    decreases |s|
  {
    if s != [] {
      var rest := Split(s[1..], sep);
      if s[0] == sep {
        if w != "" {
          SplitPiecesFree(s[1..], sep, w);
        }
      } else if w == [s[0]] + rest[0] {
        SplitPiecesFree(s[1..], sep, rest[0]);
      } else {
        assert w in rest[1..];
        SplitPiecesFree(s[1..], sep, w);
      }
    }
  }

  /** A string without the separator is a single piece. */
  lemma {:induction false} SplitNoSeparator(w: string, sep: char)
    requires sep !in w
    ensures Split(w, sep) == [w]
    decreases |w|
  {
    if w != [] {
      SplitNoSeparator(w[1..], sep);
      assert w == [w[0]] + w[1..];
    }
  }

  /** Splitting at one separator splits the two sides independently. */
  lemma {:induction false} SplitAround(a: string, b: string, sep: char)
    ensures Split(a + [sep] + b, sep) == Split(a, sep) + Split(b, sep)
    decreases |a|
  {
    if a == [] {
      assert a + [sep] + b == [sep] + b;
      assert ([sep] + b)[1..] == b;
    } else {
      var s := a + [sep] + b;
      assert s[0] == a[0] && s[1..] == a[1..] + [sep] + b;
      SplitAround(a[1..], b, sep);
      var ra := Split(a[1..], sep);
      if a[0] != sep {
        assert (ra + Split(b, sep))[0] == ra[0];
        assert (ra + Split(b, sep))[1..] == ra[1..] + Split(b, sep);
      }
    }
  }

  /** A first piece without the separator comes off the front. */
  lemma SplitFirstPiece(w: string, rest: string, sep: char)
    requires sep !in w
    ensures Split(w + [sep] + rest, sep) == [w] + Split(rest, sep)
  {
    SplitAround(w, rest, sep);
    SplitNoSeparator(w, sep);
  }

  /** Joining pieces free of the separator and splitting again gives the
      pieces back. */
  lemma {:induction false} SplitJoin(ps: seq<string>, sep: char)
    requires |ps| >= 1
    requires forall k :: 0 <= k < |ps| ==> sep !in ps[k]
    ensures Split(Join(ps, sep), sep) == ps
    decreases |ps|
  {
    if |ps| == 1 {
      SplitNoSeparator(ps[0], sep);
    } else {
      SplitJoin(ps[1..], sep);
      SplitFirstPiece(ps[0], Join(ps[1..], sep), sep);
      assert [ps[0]] + ps[1..] == ps;
    }
  }

  /** Number of occurrences of `c` in `s`. */
  function CountChar(s: string, c: char): nat {
    if s == [] then 0 else (if s[0] == c then 1 else 0) + CountChar(s[1..], c)
  }

  /** `split` gives one piece more than there are separators. */
  lemma {:induction false} SplitCount(s: string, sep: char)
    ensures |Split(s, sep)| == CountChar(s, sep) + 1
    decreases |s|
  {
    if s != [] {
      SplitCount(s[1..], sep);
    }
  }

  /** `words.filter(w => w.length > 2)`: the pieces longer than two
      characters, in their original order. */
  function LongWords(ws: seq<string>): (r: seq<string>)
    ensures |r| <= |ws|
    ensures forall k :: 0 <= k < |r| ==> |r[k]| > 2
  {
    if ws == [] then []
    else if |ws[0]| > 2 then [ws[0]] + LongWords(ws[1..])
    else LongWords(ws[1..])
  }

  /** A single piece is kept exactly when it is longer than two characters. */
  lemma LongWordsOne(w: string)
    ensures LongWords([w]) == if |w| > 2 then [w] else []
  {
  }

  /** The filter works piece by piece: filtering a concatenation is
      concatenating the filtered parts, so the kept pieces stay in their
      original order, repeats included. */
  lemma {:induction false} LongWordsAppend(a: seq<string>, b: seq<string>)
    ensures LongWords(a + b) == LongWords(a) + LongWords(b)
    decreases |a|
  {
    if a == [] {
      assert a + b == b;
    } else {
      assert (a + b)[0] == a[0];
      assert (a + b)[1..] == a[1..] + b;
      LongWordsAppend(a[1..], b);
    }
  }

  /** The filter keeps exactly the pieces longer than two characters. */
  lemma {:induction false} LongWordsMembers(ws: seq<string>, w: string)
    ensures w in LongWords(ws) <==> w in ws && |w| > 2
  {
    if ws != [] {
      LongWordsMembers(ws[1..], w);
      assert ws == [ws[0]] + ws[1..];
    }
  }
}
