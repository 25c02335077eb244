/** The grade scale: an ordered list of mention labels, best first, and the
    position index derived from it (position 0 is the best mention). */
module GradeScale {

  /** No label occurs twice on the scale. */
  predicate Distinct(mentions: seq<string>)
  {
    forall i, j :: 0 <= i < j < |mentions| ==> mentions[i] != mentions[j]
  }

  /** `i` is the last position at which `m` occurs in `mentions`. */
  predicate IsLastIndex(mentions: seq<string>, m: string, i: nat)
  {
    i < |mentions| && mentions[i] == m &&
    forall j :: i < j < |mentions| ==> mentions[j] != m
  }

  /** First position of a label on the scale. */
  function IndexOf(mentions: seq<string>, m: string): (i: nat)
    requires m in mentions
    ensures i < |mentions| && mentions[i] == m
    ensures forall j :: 0 <= j < i ==> mentions[j] != m
  {
    if mentions[0] == m then 0 else 1 + IndexOf(mentions[1..], m)
  }

  lemma IndexOfDistinct(mentions: seq<string>, i: nat)
    requires Distinct(mentions) && i < |mentions|
    ensures IndexOf(mentions, mentions[i]) == i
  {
  }

  /** The dictionary from each mention to its position, filled in one pass
      over the scale; a label listed twice keeps its last position. The map
      is always injective, and on a scale without repeats it sends the
      mention at position `i` to `i`. */
  method GetPositions(mentions: seq<string>) returns (positions: map<string, nat>)
    ensures forall m :: m in positions <==> m in mentions
    ensures forall m :: m in positions ==> IsLastIndex(mentions, m, positions[m])
    ensures forall m, m' :: m in positions && m' in positions && m != m' ==> positions[m] != positions[m']
    ensures Distinct(mentions) ==> forall i :: 0 <= i < |mentions| ==> positions[mentions[i]] == i
  {
    positions := map[];
    for i := 0 to |mentions|
      invariant forall m :: m in positions <==> m in mentions[..i]
      invariant forall m :: m in positions ==> IsLastIndex(mentions[..i], m, positions[m])
    {
      positions := positions[mentions[i] := i];
    }
    assert mentions[..|mentions|] == mentions;
  }

  // ---------------------------------------------------------------------
  // Loading a scale from text: split on a separator, strip each piece and
  // drop the blank ones, keeping their order.

  /** The characters Python's `str.strip()` removes (`str.isspace`). */
  predicate IsSpace(c: char)
    ensures c == ' ' || c == '\t' || c == '\n' || c == '\r' ==> IsSpace(c)
    ensures '!' <= c <= '~' ==> !IsSpace(c)
  {
    ('\t' <= c <= '\r') || ('\U{1C}' <= c <= ' ') || c == '\U{85}' || c == '\U{A0}'
    || c == '\U{1680}' || ('\U{2000}' <= c <= '\U{200A}') || c == '\U{2028}' || c == '\U{2029}'
    || c == '\U{202F}' || c == '\U{205F}' || c == '\U{3000}'
  }

  /** Drops the white space at the front: the result is a suffix of the
      input and everything cut is white space. */
  function StripLeft(s: string): (r: string)
    ensures |r| <= |s| && r == s[|s| - |r|..]
    ensures r == [] || !IsSpace(r[0])
    ensures forall i :: 0 <= i < |s| - |r| ==> IsSpace(s[i])
    ensures forall c :: c in r ==> c in s
  {
    if s != [] && IsSpace(s[0]) then StripLeft(s[1..]) else s
  }

  /** Drops the white space at the back: the result is a prefix of the
      input and everything cut is white space. */
  function StripRight(s: string): (r: string)
    ensures |r| <= |s| && r == s[..|r|]
    ensures r == [] || !IsSpace(r[|r| - 1])
    ensures forall i :: |r| <= i < |s| ==> IsSpace(s[i])
    ensures forall c :: c in r ==> c in s
  {
    if s != [] && IsSpace(s[|s| - 1]) then StripRight(s[..|s| - 1]) else s
  }

  /** Python's `str.strip()`: neither end of the result is white space, and
      the result keeps only characters of the input. */
  function Strip(s: string): (r: string)
    ensures r == [] || (!IsSpace(r[0]) && !IsSpace(r[|r| - 1]))
    ensures forall c :: c in r ==> c in s
  {
    StripRight(StripLeft(s))
  }

  /** What `strip` cuts: the result is the input with white space removed
      at both ends and nothing else. */
  lemma StripCuts(s: string)
    ensures var r := Strip(s);
            exists i, j :: 0 <= i <= j <= |s| && r == s[i..j] &&
              (forall k :: 0 <= k < i ==> IsSpace(s[k])) && (forall k :: j <= k < |s| ==> IsSpace(s[k]))
  {
    var l := StripLeft(s);
    var r := StripRight(l);
    var i := |s| - |l|;
    var j := i + |r|;
    assert r == s[i..j];
    forall k | j <= k < |s|
      ensures IsSpace(s[k])
    {
      assert s[k] == l[k - i];
    }
    assert Strip(s) == r;
    assert 0 <= i <= j <= |s| && Strip(s) == s[i..j] && (forall k :: 0 <= k < i ==> IsSpace(s[k]));
  }

  /** `strip` gives the empty text exactly when the input is all white
      space. */
  lemma StripBlank(s: string)
    ensures Strip(s) == [] <==> forall k :: 0 <= k < |s| ==> IsSpace(s[k])
  {
    var l := StripLeft(s);
    var r := StripRight(l);
    var i := |s| - |l|;
    if r == [] {
      assert l == [];
    } else {
      assert r[0] in s;
    }
  }

  /** Cutting white space in front of a text reaches the text. */
  lemma {:induction false} StripLeftSpaces(w: string, t: string)
    requires forall k :: 0 <= k < |w| ==> IsSpace(w[k])
    ensures StripLeft(w + t) == StripLeft(t)
  {
    if w != [] {
      assert (w + t)[1..] == w[1..] + t;
      StripLeftSpaces(w[1..], t);
    } else {
      assert w + t == t;
    }
  }

  /** Cutting white space behind a text reaches the text. */
  lemma {:induction false} StripRightSpaces(t: string, w: string)
    requires forall k :: 0 <= k < |w| ==> IsSpace(w[k])
    ensures StripRight(t + w) == StripRight(t)
  {
    if w != [] {
      var u := w[..|w| - 1];
      assert (t + w)[..|t + w| - 1] == t + u;
      StripRightSpaces(t, u);
    } else {
      assert t + w == t;
    }
  }

  /** A label with white space around it strips to the label. */
  lemma StripPadded(w1: string, m: string, w2: string)
    requires forall k :: 0 <= k < |w1| ==> IsSpace(w1[k])
    requires forall k :: 0 <= k < |w2| ==> IsSpace(w2[k])
    requires m != [] && !IsSpace(m[0]) && !IsSpace(m[|m| - 1])
    ensures Strip(w1 + m + w2) == m
  {
    assert w1 + m + w2 == w1 + (m + w2);
    StripLeftSpaces(w1, m + w2);
    assert StripLeft(m + w2) == m + w2;
    StripRightSpaces(m, w2);
  }

  /** Python's `str.split(sep)` for a one-character separator. */
  function Split(s: string, sep: char): (pieces: seq<string>)
    ensures |pieces| >= 1
    ensures forall p :: p in pieces ==> sep !in p
  {
    if s == [] then [""]
    else
      var rest := Split(s[1..], sep);
      if s[0] == sep then [""] + rest
      else [[s[0]] + rest[0]] + rest[1..]
  }

  function Join(pieces: seq<string>, sep: char): string
    requires |pieces| >= 1
  {
    if |pieces| == 1 then pieces[0] else pieces[0] + [sep] + Join(pieces[1..], sep)
  }

  lemma JoinCons(p: string, pieces: seq<string>, sep: char)
    requires |pieces| >= 1
    ensures Join([p] + pieces, sep) == p + [sep] + Join(pieces, sep)
  {
    assert ([p] + pieces)[1..] == pieces;
  }

  /** Putting a character in front of the first piece puts it in front of
      the joined text. */
  lemma {:induction false} JoinPrepend(x: char, pieces: seq<string>, sep: char)
    requires |pieces| >= 1
    ensures Join([[x] + pieces[0]] + pieces[1..], sep) == [x] + Join(pieces, sep)
  {
    if |pieces| > 1 {
      JoinCons([x] + pieces[0], pieces[1..], sep);
      JoinCons(pieces[0], pieces[1..], sep);
      assert [pieces[0]] + pieces[1..] == pieces;
    }
  }

  /** Joining the pieces of a split with the separator gives back the text. */
  lemma {:induction false} SplitJoin(s: string, sep: char)
    ensures Join(Split(s, sep), sep) == s
  {
    if s != [] {
      var rest := Split(s[1..], sep);
      SplitJoin(s[1..], sep);
      if s[0] == sep {
        JoinCons("", rest, sep);
      } else {
        JoinPrepend(s[0], rest, sep);
      }
      assert [s[0]] + s[1..] == s;
    }
  }

  /** Strip each piece and keep the non-blank ones, in order. */
  function KeepStripped(pieces: seq<string>): (r: seq<string>)
    ensures |r| <= |pieces|
    ensures forall m :: m in r ==> m != [] && !IsSpace(m[0]) && !IsSpace(m[|m| - 1])
  {
    if pieces == [] then []
    else
      var rest := KeepStripped(pieces[1..]);
      var p := pieces[0];
      if p != [] && Strip(p) != [] then [Strip(p)] + rest else rest
  }

  /** Keeping the stripped pieces goes piece by piece, in order: a piece at
      the end adds its stripped form unless that is blank. */
  lemma {:induction false} KeepStrippedSnoc(pieces: seq<string>, p: string)
    ensures KeepStripped(pieces + [p]) == KeepStripped(pieces) + (if Strip(p) == [] then [] else [Strip(p)])
  {
    if pieces == [] {
      assert [] + [p] == [p];
    } else {
      assert (pieces + [p])[1..] == pieces[1..] + [p];
      KeepStrippedSnoc(pieces[1..], p);
    }
  }

  /** Pieces that each strip to a non-blank label keep exactly those labels. */
  lemma {:induction false} KeepStrippedLabels(pieces: seq<string>, labels: seq<string>)
    requires |pieces| == |labels|
    requires forall i :: 0 <= i < |pieces| ==> labels[i] != [] && Strip(pieces[i]) == labels[i]
    ensures KeepStripped(pieces) == labels
  {
    if pieces != [] {
      KeepStrippedLabels(pieces[1..], labels[1..]);
      assert [labels[0]] + labels[1..] == labels;
    }
  }

  /** Stripping a piece never brings in a character it did not have. */
  lemma {:induction false} KeepStrippedAvoids(pieces: seq<string>, sep: char)
    requires forall p :: p in pieces ==> sep !in p
    ensures forall m :: m in KeepStripped(pieces) ==> sep !in m
  {
    if pieces != [] {
      KeepStrippedAvoids(pieces[1..], sep);
    }
  }

  /** Splitting a text `p + t`, where `p` holds no separator, puts `p` in
      front of the first piece of `t`. */
  lemma {:induction false} SplitAppend(p: string, t: string, sep: char)
    requires sep !in p
    ensures Split(p + t, sep) == [p + Split(t, sep)[0]] + Split(t, sep)[1..]
  {
    if p == [] {
      assert p + t == t;
      assert p + Split(t, sep)[0] == Split(t, sep)[0];
      assert [Split(t, sep)[0]] + Split(t, sep)[1..] == Split(t, sep);
    } else {
      assert (p + t)[0] == p[0] && (p + t)[1..] == p[1..] + t;
      SplitAppend(p[1..], t, sep);
      assert [p[0]] + (p[1..] + Split(t, sep)[0]) == p + Split(t, sep)[0];
    }
  }

  /** Splitting the join of pieces without the separator gives back the
      pieces: the other half of the round trip. */
  lemma {:induction false} JoinSplit(pieces: seq<string>, sep: char)
    requires |pieces| >= 1 && forall p :: p in pieces ==> sep !in p
    ensures Split(Join(pieces, sep), sep) == pieces
  {
    var p := pieces[0];
    if |pieces| == 1 {
      SplitAppend(p, [], sep);
      assert p + [] == p;
    } else {
      var rest := Join(pieces[1..], sep);
      assert Join(pieces, sep) == p + [sep] + rest;
      JoinSplit(pieces[1..], sep);
      assert ([sep] + rest)[1..] == rest;
      assert Split([sep] + rest, sep) == [""] + pieces[1..];
      SplitAppend(p, [sep] + rest, sep);
      assert ([""] + pieces[1..])[1..] == pieces[1..] && p + "" == p;
      assert p + [sep] + rest == p + ([sep] + rest);
      assert [p] + pieces[1..] == pieces;
    }
  }

  /** Joining one more piece appends the separator and the piece. */
  lemma {:induction false} JoinSnoc(pieces: seq<string>, p: string, sep: char)
    requires |pieces| >= 1
    ensures Join(pieces + [p], sep) == Join(pieces, sep) + [sep] + p
  {
    if |pieces| == 1 {
      assert pieces + [p] == [pieces[0]] + [p];
      JoinCons(pieces[0], [p], sep);
    } else {
      var q := pieces[0];
      assert pieces + [p] == [q] + (pieces[1..] + [p]);
      JoinCons(q, pieces[1..] + [p], sep);
      JoinSnoc(pieces[1..], p, sep);
      JoinCons(q, pieces[1..], sep);
      assert [q] + pieces[1..] == pieces;
    }
  }

  /** The joined text starts with the first piece's first character and ends
      with the last piece's last character. */
  lemma {:induction false} JoinEnds(pieces: seq<string>, sep: char)
    requires |pieces| >= 1 && forall i :: 0 <= i < |pieces| ==> pieces[i] != []
    ensures var s := Join(pieces, sep); var last := pieces[|pieces| - 1];
            s != [] && s[0] == pieces[0][0] && s[|s| - 1] == last[|last| - 1]
  {
    if |pieces| > 1 {
      JoinEnds(pieces[1..], sep);
    }
  }

  /** `load_mentions_from_string`: every mention of the loaded scale is a
      non-empty label with no surrounding white space and no separator. */
  function LoadMentionsFromString(ms: string, sep: char := '\n'): (mentions: seq<string>)
    ensures forall m :: m in mentions ==> m != [] && !IsSpace(m[0]) && !IsSpace(m[|m| - 1])
    ensures forall m :: m in mentions ==> sep !in m
  {
    var pieces := Split(Strip(ms), sep);
    KeepStrippedAvoids(pieces, sep);
    KeepStripped(pieces)
  }

  /** A text without white space at either end strips to itself. */
  lemma StripStripped(m: string)
    requires m == [] || (!IsSpace(m[0]) && !IsSpace(m[|m| - 1]))
    ensures Strip(m) == m
  {
    assert StripLeft(m) == m;
  }

  /** A scale's joined text needs no stripping. */
  lemma JoinStripped(labels: seq<string>, sep: char)
    requires |labels| >= 1
    requires forall i :: 0 <= i < |labels| ==>
               labels[i] != [] && !IsSpace(labels[i][0]) && !IsSpace(labels[i][|labels[i]| - 1])
    ensures Strip(Join(labels, sep)) == Join(labels, sep)
  {
    JoinEnds(labels, sep);
    StripStripped(Join(labels, sep));
  }

  /** Unpadded labels strip to themselves. */
  lemma LabelsStripped(labels: seq<string>)
    requires forall i :: 0 <= i < |labels| ==>
               labels[i] != [] && !IsSpace(labels[i][0]) && !IsSpace(labels[i][|labels[i]| - 1])
    ensures forall i :: 0 <= i < |labels| ==> Strip(labels[i]) == labels[i]
  {
    forall i | 0 <= i < |labels|
      ensures Strip(labels[i]) == labels[i]
    {
      StripStripped(labels[i]);
    }
  }

  /** Loading the lines of a scale joined by the separator gives back the
      scale, when every label is non-blank, unpadded and free of the
      separator. */
  lemma LoadMentionsRoundTrip(labels: seq<string>, sep: char)
    requires |labels| >= 1
    requires forall i :: 0 <= i < |labels| ==>
               labels[i] != [] && !IsSpace(labels[i][0]) && !IsSpace(labels[i][|labels[i]| - 1]) && sep !in labels[i]
    ensures LoadMentionsFromString(Join(labels, sep), sep) == labels
  {
    JoinStripped(labels, sep);
    JoinSplit(labels, sep);
    LabelsStripped(labels);
    KeepStrippedLabels(labels, labels);
  }
}
