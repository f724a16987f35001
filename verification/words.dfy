/**
 * Space-separated lines. The exporter builds each data line by writing
 * fields separated by a single blank; `Split` cuts a line at every blank
 * and is the partner of `Unwords`.
 */
module Words {

  /** The words of `ws` separated by single blanks. */
  function Unwords(ws: seq<string>): string
    requires |ws| > 0
  {
    if |ws| == 1 then ws[0] else ws[0] + " " + Unwords(ws[1..])
  }

  /** Cuts `s` at every blank; `k` blanks give `k + 1` pieces. */
  function Split(s: string): (ws: seq<string>)
    ensures |ws| > 0
  {
    if |s| == 0 then [""]
    else
      var rest := Split(s[1..]);
      if s[0] == ' ' then [""] + rest else [[s[0]] + rest[0]] + rest[1..]
  }

  predicate Blankless(ws: seq<string>) {
    forall i :: 0 <= i < |ws| ==> ' ' !in ws[i]
  }

  /** A blank-free prefix glues onto the first piece of the rest. */
  lemma {:induction false} SplitPrefix(w: string, t: string)
    requires ' ' !in w
    ensures Split(w + t) == [w + Split(t)[0]] + Split(t)[1..]
    decreases |w|
  {
    if |w| == 0 {
      assert w + t == t;
      assert w + Split(t)[0] == Split(t)[0];
    } else {
      SplitPrefix(w[1..], t);
      assert (w + t)[1..] == w[1..] + t;
      assert [w[0]] + (w[1..] + Split(t)[0]) == w + Split(t)[0];
    }
  }

  /** A blank-free word followed by a blank and more text splits off as one word. */
  lemma {:induction false} SplitCons(w: string, t: string)
    requires ' ' !in w
    ensures Split(w + " " + t) == [w] + Split(t)
  {
    assert Split(" " + t) == [""] + Split(t) by {
      assert (" " + t)[1..] == t;
    }
    SplitPrefix(w, " " + t);
    assert w + " " + t == w + (" " + t);
    assert w + "" == w;
  }

  /** A single blank-free word splits to itself. */
  lemma {:induction false} SplitSingle(w: string)
    requires ' ' !in w
    ensures Split(w) == [w]
  {
    SplitPrefix(w, "");
    assert w + "" == w;
  }

  /** Joining blank-free words and cutting the line at blanks gives the words back. */
  lemma {:induction false} SplitUnwords(ws: seq<string>)
    requires |ws| > 0 && Blankless(ws)
    ensures Split(Unwords(ws)) == ws
    decreases |ws|
  {
    if |ws| == 1 {
      SplitSingle(ws[0]);
    } else {
      SplitUnwords(ws[1..]);
      SplitCons(ws[0], Unwords(ws[1..]));
      assert ws == [ws[0]] + ws[1..];
    }
  }
}
