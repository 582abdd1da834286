/** Reading the list of private keys: the file's text is split on line
    feeds, every line is trimmed, and empty results are dropped. */
module KeyList {

  const LineFeed: char := '\n'

  /** The characters `String.prototype.trim` removes: ECMAScript WhiteSpace
      (tab, vertical tab, form feed, space, no-break space, byte order mark
      and the Unicode space separators) and LineTerminator (line feed,
      carriage return, line and paragraph separators). */
  predicate IsSpace(c: char) {
    || c == '\t' || c == '\n' || c == '\U{000B}' || c == '\U{000C}' || c == '\r'
    || c == ' ' || c == '\U{00A0}' || c == '\U{1680}'
    || ('\U{2000}' <= c <= '\U{200A}')
    || c == '\U{2028}' || c == '\U{2029}' || c == '\U{202F}' || c == '\U{205F}'
    || c == '\U{3000}' || c == '\U{FEFF}'
  }

  predicate AllSpace(s: string) {
    forall i :: 0 <= i < |s| ==> IsSpace(s[i])
  }

  /** A string with no space at either end. */
  predicate IsTrimmed(s: string) {
    s == [] || (!IsSpace(s[0]) && !IsSpace(s[|s| - 1]))
  }

  // ---------------------------------------------------------------------
  // split

  /** Number of occurrences of `c` in `s`. */
  function Occurrences(s: string, c: char): (n: nat) {
    if s == [] then 0 else (if s[0] == c then 1 else 0) + Occurrences(s[1..], c)
  }

  /** `s.split(sep)`: the pieces between separators, empty ones included. */
  function Split(s: string, sep: char): (parts: seq<string>)
    ensures |parts| == 1 + Occurrences(s, sep)
    ensures forall i :: 0 <= i < |parts| ==> sep !in parts[i]
    decreases |s|
  {
    if s == [] then [""]
    else
      var rest := Split(s[1..], sep);
      assert s == [s[0]] + s[1..];
      if s[0] == sep then [""] + rest
      else [[s[0]] + rest[0]] + rest[1..]
  }

  /** `parts.join(sep)`, the inverse of `Split`. */
  function Join(parts: seq<string>, sep: char): (s: string)
    requires |parts| >= 1
  {
    if |parts| == 1 then parts[0] else parts[0] + [sep] + Join(parts[1..], sep)
  }

  lemma {:induction false} JoinSplit(s: string, sep: char)
    ensures Join(Split(s, sep), sep) == s
    decreases |s|
  {
    if s != [] {
      var rest := Split(s[1..], sep);
      JoinSplit(s[1..], sep);
      assert Join(rest, sep) == s[1..];
      assert s == [s[0]] + s[1..];
      if s[0] == sep {
        assert Split(s, sep) == [""] + rest;
        assert ([""] + rest)[1..] == rest;
        assert Join(Split(s, sep), sep) == [sep] + Join(rest, sep);
      } else {
        var parts := Split(s, sep);
        assert parts == [[s[0]] + rest[0]] + rest[1..];
        if |rest| == 1 {
          assert Join(parts, sep) == [s[0]] + rest[0];
        } else {
          assert parts[1..] == rest[1..];
          assert Join(rest, sep) == rest[0] + [sep] + Join(rest[1..], sep);
          assert Join(parts, sep) == ([s[0]] + rest[0]) + [sep] + Join(rest[1..], sep);
        }
      }
    }
  }

  lemma {:induction false} SplitNoSeparator(p: string, sep: char)
    requires sep !in p
    ensures Split(p, sep) == [p]
    decreases |p|
  {
    if p != [] {
      assert p[0] in p;
      assert sep !in p[1..] by {
        forall c | c in p[1..] ensures c != sep { assert c in p; }
      }
      SplitNoSeparator(p[1..], sep);
      assert [p[0]] + p[1..] == p;
    }
  }

  /** A separator-free piece followed by a separator is split off as one part. */
  lemma {:induction false} SplitPiece(p: string, sep: char, t: string)
    requires sep !in p
    ensures Split(p + [sep] + t, sep) == [p] + Split(t, sep)
    decreases |p|
  {
    var s := p + [sep] + t;
    if p == [] {
      assert s[1..] == t;
    } else {
      assert p[0] in p;
      assert sep !in p[1..] by {
        forall c | c in p[1..] ensures c != sep { assert c in p; }
      }
      assert s[1..] == p[1..] + [sep] + t;
      SplitPiece(p[1..], sep, t);
      assert [p[0]] + p[1..] == p;
    }
  }

  lemma {:induction false} SplitJoin(parts: seq<string>, sep: char)
    requires |parts| >= 1
    requires forall i :: 0 <= i < |parts| ==> sep !in parts[i]
    ensures Split(Join(parts, sep), sep) == parts
    decreases |parts|
  {
    if |parts| == 1 {
      SplitNoSeparator(parts[0], sep);
    } else {
      SplitJoin(parts[1..], sep);
      SplitPiece(parts[0], sep, Join(parts[1..], sep));
      assert [parts[0]] + parts[1..] == parts;
    }
  }

  // ---------------------------------------------------------------------
  // trim

  /** Number of space characters at the start of `s`. */
  function LeadingSpace(s: string): (n: nat)
    ensures n <= |s|
    ensures forall i :: 0 <= i < n ==> IsSpace(s[i])
    ensures n == |s| || !IsSpace(s[n])
  {
    if s == [] || !IsSpace(s[0]) then 0
    else 1 + LeadingSpace(s[1..])
  }

  /** Number of space characters at the end of `s`. */
  function TrailingSpace(s: string): (n: nat)
    ensures n <= |s|
    ensures forall i :: |s| - n <= i < |s| ==> IsSpace(s[i])
    ensures n == |s| || !IsSpace(s[|s| - n - 1])
  {
    if s == [] || !IsSpace(s[|s| - 1]) then 0
    else 1 + TrailingSpace(s[..|s| - 1])
  }

  /** `s.trim()`: the infix left after removing the longest space prefix and
      the longest space suffix. */
  function Trim(s: string): (r: string)
    ensures IsTrimmed(r)
    ensures r == [] <==> AllSpace(s)
    ensures var a := LeadingSpace(s);
      a + |r| <= |s| && s[a..a + |r|] == r &&
      (forall i :: 0 <= i < a ==> IsSpace(s[i])) &&
      (forall i :: a + |r| <= i < |s| ==> IsSpace(s[i]))
  {
    var a := LeadingSpace(s);
    var b := TrailingSpace(s[a..]);
    s[a..|s| - b]
  }

  lemma TrimTrimmed(s: string)
    requires IsTrimmed(s)
    ensures Trim(s) == s
  {
    var a := LeadingSpace(s);
    if s != [] {
      assert a == 0;
      assert TrailingSpace(s) == 0;
      assert s[0..] == s;
    }
  }

  /** Trimming twice is trimming once. */
  lemma TrimIdempotent(s: string)
    ensures Trim(Trim(s)) == Trim(s)
  {
    TrimTrimmed(Trim(s));
  }

  // ---------------------------------------------------------------------
  // the key list

  /** `.map(key => key.trim())`. */
  function TrimAll(lines: seq<string>): (ts: seq<string>)
    ensures |ts| == |lines|
    ensures forall i :: 0 <= i < |lines| ==> ts[i] == Trim(lines[i]) && IsTrimmed(ts[i])
  {
    seq(|lines|, i requires 0 <= i < |lines| => Trim(lines[i]))
  }

  /** `.filter(Boolean)`: the non-empty strings, in order. */
  function DropEmpty(xs: seq<string>): (ys: seq<string>)
    ensures |ys| <= |xs|
    ensures forall i :: 0 <= i < |ys| ==> ys[i] != ""
  {
    if xs == [] then []
    else (if xs[0] == "" then [] else [xs[0]]) + DropEmpty(xs[1..])
  }

  /** The keys one list of lines yields. */
  function NonBlank(lines: seq<string>): (keys: seq<string>)
    ensures |keys| <= |lines|
    ensures forall i :: 0 <= i < |keys| ==> keys[i] != "" && IsTrimmed(keys[i])
  {
    var ts := TrimAll(lines);
    DropEmptyTrimmed(ts);
    DropEmpty(ts)
  }

  /** Filtering keeps strings that are trimmed trimmed. */
  lemma DropEmptyTrimmed(xs: seq<string>)
    requires forall i :: 0 <= i < |xs| ==> IsTrimmed(xs[i])
    ensures forall k :: 0 <= k < |DropEmpty(xs)| ==> IsTrimmed(DropEmpty(xs)[k])
  {
    forall k | 0 <= k < |DropEmpty(xs)| ensures IsTrimmed(DropEmpty(xs)[k]) {
      var i := DropEmptySource(xs, k);
    }
  }

  /** The private keys read from the text of the key file. */
  function ParseKeys(content: string): (keys: seq<string>)
    ensures forall i :: 0 <= i < |keys| ==> keys[i] != "" && IsTrimmed(keys[i])
    ensures forall i :: 0 <= i < |keys| ==> LineFeed !in keys[i]
  {
    var lines := Split(content, LineFeed);
    NonBlankFromLines(lines);
    NonBlank(lines)
  }

  /** Each key is the trimmed form of some line: it is trimmed and holds no
      character the line does not hold. */
  lemma NonBlankFromLines(lines: seq<string>)
    ensures forall k :: 0 <= k < |NonBlank(lines)| ==>
      IsTrimmed(NonBlank(lines)[k]) &&
      forall c :: c in NonBlank(lines)[k] ==> exists i :: 0 <= i < |lines| && c in lines[i]
  {
    var keys := NonBlank(lines);
    forall k | 0 <= k < |keys|
      ensures IsTrimmed(keys[k])
      ensures forall c :: c in keys[k] ==> exists i :: 0 <= i < |lines| && c in lines[i]
    {
      var i := DropEmptySource(TrimAll(lines), k);
      TrimInfix(lines[i]);
    }
  }

  lemma TrimInfix(s: string)
    ensures forall c :: c in Trim(s) ==> c in s
  {
    var r := Trim(s);
    var a := LeadingSpace(s);
    forall c | c in r ensures c in s {
      var j :| 0 <= j < |r| && r[j] == c;
      assert s[a + j] == c;
    }
  }

  /** The index of the string that the `k`-th kept string is. */
  lemma {:induction false} DropEmptySource(xs: seq<string>, k: nat) returns (i: nat)
    requires k < |DropEmpty(xs)|
    ensures i < |xs| && DropEmpty(xs)[k] == xs[i]
  {
    var head: seq<string> := if xs[0] == "" then [] else [xs[0]];
    var tail := DropEmpty(xs[1..]);
    if k < |head| {
      i := 0;
    } else {
      var i' := DropEmptySource(xs[1..], k - |head|);
      i := i' + 1;
    }
  }

  /** Filtering two blocks is filtering each: strings are judged one at a
      time and keep their order. */
  lemma {:induction false} DropEmptyAppend(a: seq<string>, b: seq<string>)
    ensures DropEmpty(a + b) == DropEmpty(a) + DropEmpty(b)
    decreases |a|
  {
    if a != [] {
      assert (a + b)[0] == a[0];
      assert (a + b)[1..] == a[1..] + b;
      DropEmptyAppend(a[1..], b);
    } else {
      assert a + b == b;
    }
  }

  /** Every non-empty string is kept. */
  lemma {:induction false} DropEmptyKeeps(xs: seq<string>, i: nat)
    requires i < |xs| && xs[i] != ""
    ensures xs[i] in DropEmpty(xs)
  {
    if i > 0 {
      assert xs[1..][i - 1] == xs[i];
      DropEmptyKeeps(xs[1..], i - 1);
    }
  }

  /** Lines are judged one at a time and keep their order: the keys of two
      blocks of lines are the keys of the first followed by those of the
      second. */
  lemma NonBlankAppend(a: seq<string>, b: seq<string>)
    ensures NonBlank(a + b) == NonBlank(a) + NonBlank(b)
  {
    assert TrimAll(a + b) == TrimAll(a) + TrimAll(b);
    DropEmptyAppend(TrimAll(a), TrimAll(b));
  }

  /** A single line yields its trimmed form exactly when that is not empty. */
  lemma NonBlankSingle(line: string)
    ensures NonBlank([line]) == if Trim(line) == "" then [] else [Trim(line)]
  {
    assert TrimAll([line]) == [Trim(line)];
    assert [Trim(line)][1..] == [];
  }

  /** A string is a key exactly when it is the non-empty trimmed form of a
      line: every non-blank line is kept and nothing else is produced. */
  lemma NonBlankMembership(lines: seq<string>, x: string)
    ensures x in NonBlank(lines) <==>
      x != "" && exists i :: 0 <= i < |lines| && Trim(lines[i]) == x
  {
    var ts := TrimAll(lines);
    if x in NonBlank(lines) {
      var k :| 0 <= k < |NonBlank(lines)| && NonBlank(lines)[k] == x;
      var i := DropEmptySource(ts, k);
    }
    if x != "" && exists i :: 0 <= i < |lines| && Trim(lines[i]) == x {
      var i :| 0 <= i < |lines| && Trim(lines[i]) == x;
      DropEmptyKeeps(ts, i);
    }
  }

  /** A file written as the lines `lines`, joined by line feeds, yields the
      non-blank lines, trimmed, in their order. */
  lemma ParseKeysOfLines(lines: seq<string>)
    requires |lines| >= 1
    requires forall i :: 0 <= i < |lines| ==> LineFeed !in lines[i]
    ensures ParseKeys(Join(lines, LineFeed)) == NonBlank(lines)
  {
    SplitJoin(lines, LineFeed);
  }
}
