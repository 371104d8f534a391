// The full-text tokenizer (tokenize in pkg/search/fulltext.go): lowercase the
// text, split it into maximal runs of letters and digits, and keep the runs
// of at least two bytes in UTF-8.
module SearchTokenize {

  /** A letter or digit. ASCII is classified exactly; every non-ASCII scalar counts as a letter. */
  predicate IsWordChar(c: char)
  {
    ('a' <= c <= 'z') || ('A' <= c <= 'Z') || ('0' <= c <= '9') || c as int >= 0x80
  }

  /** strings.ToLower on one character; only A-Z change. */
  function LowerChar(c: char): (d: char)
    ensures IsWordChar(d) == IsWordChar(c)
    ensures !('A' <= d <= 'Z')
    ensures !('A' <= c <= 'Z') ==> d == c
  {
    if 'A' <= c <= 'Z' then (c as int + 32) as char else c
  }

  function LowerAll(s: string): (r: string)
    ensures |r| == |s| && forall i :: 0 <= i < |s| ==> r[i] == LowerChar(s[i])
  {
    seq(|s|, i requires 0 <= i < |s| => LowerChar(s[i]))
  }

  /** The number of bytes of a scalar value in UTF-8. */
  function Utf8Len(c: char): nat
  {
    if c as int < 0x80 then 1 else if c as int < 0x800 then 2 else if c as int < 0x10000 then 3 else 4
  }

  /** len(word) in Go: the byte length of the UTF-8 encoding. */
  function ByteLen(s: string): (n: nat)
    ensures n >= |s|
  {
    if s == [] then 0 else ByteLen(s[..|s| - 1]) + Utf8Len(s[|s| - 1])
  }

  predicate AllWord(s: string)
  {
    forall i :: 0 <= i < |s| ==> IsWordChar(s[i])
  }

  /** The length of the run of word characters `s` starts with. */
  function WordLen(s: string): (n: nat)
    ensures n <= |s| && AllWord(s[..n])
    ensures n < |s| ==> !IsWordChar(s[n])
  {
    if s == [] || !IsWordChar(s[0]) then 0
    else
      var m := WordLen(s[1..]);
      assert s[..m + 1] == [s[0]] + s[1..][..m];
      m + 1
  }

  /** strings.FieldsFunc: the maximal non-empty runs of word characters, in order. */
  function Fields(s: string): seq<string>
    decreases |s|
  {
    if s == [] then []
    else if !IsWordChar(s[0]) then Fields(s[1..])
    else
      var n := WordLen(s);
      [s[..n]] + Fields(s[n..])
  }

  /** The filter loop of tokenize: words of fewer than two bytes are dropped. */
  function KeepLong(ws: seq<string>): (r: seq<string>)
    ensures forall w :: w in r <==> w in ws && ByteLen(w) >= 2
  {
    if ws == [] then []
    else
      var rest := KeepLong(ws[..|ws| - 1]);
      if ByteLen(ws[|ws| - 1]) >= 2 then rest + [ws[|ws| - 1]] else rest
  }

  /** The tokens are exactly the fields of the lower-cased text that are two bytes or longer. */
  function Tokenize(text: string): (r: seq<string>)
    ensures forall w :: w in r <==> w in Fields(LowerAll(text)) && ByteLen(w) >= 2
  {
    KeepLong(Fields(LowerAll(text)))
  }

  /** Every token is at least two bytes long, made of letters and digits only, and has no upper-case ASCII letter. */
  lemma TokenShape(text: string)
    ensures forall i :: 0 <= i < |Tokenize(text)| ==>
      ByteLen(Tokenize(text)[i]) >= 2 && |Tokenize(text)[i]| > 0 && AllWord(Tokenize(text)[i])
    ensures forall i, j :: 0 <= i < |Tokenize(text)| && 0 <= j < |Tokenize(text)[i]| ==> !('A' <= Tokenize(text)[i][j] <= 'Z')
  {
    var low := LowerAll(text);
    FieldsFrom(low);
    FieldsShape(low);
    KeepLongShape(Fields(low));
  }

  /** Every field is a non-empty run of word characters. */
  lemma {:induction false} FieldsShape(s: string)
    ensures forall i :: 0 <= i < |Fields(s)| ==> |Fields(s)[i]| > 0 && AllWord(Fields(s)[i])
    decreases |s|
  {
    if s != [] {
      if !IsWordChar(s[0]) {
        FieldsShape(s[1..]);
      } else {
        FieldsShape(s[WordLen(s)..]);
      }
    }
  }

  /** The kept words are words of the input at least two bytes long, and no more of them. */
  lemma {:induction false} KeepLongShape(ws: seq<string>)
    ensures forall i :: 0 <= i < |KeepLong(ws)| ==> ByteLen(KeepLong(ws)[i]) >= 2 && KeepLong(ws)[i] in ws
    ensures |KeepLong(ws)| <= |ws|
  {
    if ws != [] {
      KeepLongShape(ws[..|ws| - 1]);
    }
  }

  /** Every field is a segment of its input. */
  lemma {:induction false} FieldsFrom(s: string)
    ensures forall w :: w in Fields(s) ==> forall j :: 0 <= j < |w| ==> w[j] in s
    decreases |s|
  {
    if s != [] {
      if !IsWordChar(s[0]) {
        FieldsFrom(s[1..]);
      } else {
        var n := WordLen(s);
        FieldsFrom(s[n..]);
      }
    }
  }

  /** A run of word characters stops at the first separator. */
  lemma {:induction false} WordLenStops(s: string, c: char, t: string)
    requires !IsWordChar(c)
    ensures WordLen(s + [c] + t) == WordLen(s)
    decreases |s|
  {
    if s == [] {
      assert (s + [c] + t)[0] == c;
    } else {
      assert (s + [c] + t)[0] == s[0];
      if IsWordChar(s[0]) {
        assert (s + [c] + t)[1..] == s[1..] + [c] + t;
        WordLenStops(s[1..], c, t);
      }
    }
  }

  /** Splitting distributes over a separator. */
  lemma {:induction false} FieldsSplit(s: string, c: char, t: string)
    requires !IsWordChar(c)
    ensures Fields(s + [c] + t) == Fields(s) + Fields(t)
    decreases |s|
  {
    var u := s + [c] + t;
    if s == [] {
      assert u[0] == c && u[1..] == t;
    } else if !IsWordChar(s[0]) {
      assert u[0] == s[0] && u[1..] == s[1..] + [c] + t;
      FieldsSplit(s[1..], c, t);
    } else {
      assert u[0] == s[0];
      WordLenStops(s, c, t);
      var n := WordLen(s);
      assert u[..n] == s[..n];
      assert u[n..] == s[n..] + [c] + t;
      FieldsSplit(s[n..], c, t);
    }
  }

  lemma {:induction false} KeepLongAppend(a: seq<string>, b: seq<string>)
    ensures KeepLong(a + b) == KeepLong(a) + KeepLong(b)
    decreases |b|
  {
    if b != [] {
      var b' := b[..|b| - 1];
      assert a + b == (a + b') + [b[|b| - 1]];
      assert (a + b)[..|a + b| - 1] == a + b';
      KeepLongAppend(a, b');
    } else {
      assert a + b == a;
    }
  }

  lemma LowerAllSplit(s: string, c: char, t: string)
    ensures LowerAll(s + [c] + t) == LowerAll(s) + [LowerChar(c)] + LowerAll(t)
  {
  }

  /** Tokenizing text joined by a separator gives the tokens of each part, in order. */
  lemma TokenizeSplit(s: string, c: char, t: string)
    requires !IsWordChar(c)
    ensures Tokenize(s + [c] + t) == Tokenize(s) + Tokenize(t)
  {
    LowerAllSplit(s, c, t);
    FieldsSplit(LowerAll(s), LowerChar(c), LowerAll(t));
    KeepLongAppend(Fields(LowerAll(s)), Fields(LowerAll(t)));
  }

  /** Text without letters or digits has no tokens. */
  lemma {:induction false} NoWordsNoTokens(text: string)
    requires forall i :: 0 <= i < |text| ==> !IsWordChar(text[i])
    ensures Tokenize(text) == []
  {
    NoWordsNoFields(LowerAll(text));
  }

  lemma {:induction false} NoWordsNoFields(s: string)
    requires forall i :: 0 <= i < |s| ==> !IsWordChar(s[i])
    ensures Fields(s) == []
    decreases |s|
  {
    if s != [] {
      NoWordsNoFields(s[1..]);
    }
  }

  /** A lower-case ASCII word is its own only token when it has two letters or more, and has none otherwise. */
  lemma Word(w: string)
    requires |w| > 0 && forall i :: 0 <= i < |w| ==> 'a' <= w[i] <= 'z'
    ensures Tokenize(w) == if |w| >= 2 then [w] else []
  {
    assert LowerAll(w) == w;
    assert WordLen(w) == |w| by {
      WordLenAll(w);
    }
    assert w[..|w|] == w && w[|w|..] == [];
    assert Fields(w) == [w] + Fields([]);
    assert ByteLen(w) == |w| by {
      AsciiByteLen(w);
    }
    assert [w][..0] == [] && [w][0] == w;
    assert KeepLong([]) == [];
    assert KeepLong([w]) == if ByteLen(w) >= 2 then [w] else [];
  }

  lemma {:induction false} WordLenAll(s: string)
    requires AllWord(s)
    ensures WordLen(s) == |s|
  {
    if s != [] {
      WordLenAll(s[1..]);
    }
  }

  lemma {:induction false} AsciiByteLen(s: string)
    requires forall i :: 0 <= i < |s| ==> s[i] as int < 0x80
    ensures ByteLen(s) == |s|
  {
    if s != [] {
      AsciiByteLen(s[..|s| - 1]);
    }
  }
}
