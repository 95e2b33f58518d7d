/** `splitText` of motion.js: a text is cut into words at every single space
    (as `split(' ')` does, so two spaces in a row give an empty word), and every
    word into its characters; the page then holds one span per word and one per
    character, in text order. */
module TextSplit {

  /** `text.split(' ')`. */
  function SplitWords(s: string): (ws: seq<string>)
    ensures |ws| >= 1
    ensures forall k :: 0 <= k < |ws| ==> ' ' !in ws[k]
  {
    if s == [] then [[]]
    else
      var rest := SplitWords(s[1..]);
      if s[0] == ' ' then [[]] + rest else [[s[0]] + rest[0]] + rest[1..]
  }

  /** The inverse operation: words joined with one space between them. */
  function JoinWords(ws: seq<string>): string
    requires |ws| >= 1
  {
    if |ws| == 1 then ws[0] else ws[0] + " " + JoinWords(ws[1..])
  }

  /** All words' characters one after the other. */
  function Flatten(ws: seq<string>): string {
    if ws == [] then [] else ws[0] + Flatten(ws[1..])
  }

  function CountSpaces(s: string): nat {
    if s == [] then 0 else (if s[0] == ' ' then 1 else 0) + CountSpaces(s[1..])
  }

  /** The text with its spaces taken out. */
  function WithoutSpaces(s: string): string {
    if s == [] then [] else (if s[0] == ' ' then [] else [s[0]]) + WithoutSpaces(s[1..])
  }

  /** What `splitText` leaves in the element: the word spans and the character
      spans, in document order. */
  datatype SplitResult = SplitResult(words: seq<string>, chars: seq<char>)

  function SplitText(text: string): (r: SplitResult)
    ensures |r.words| == CountSpaces(text) + 1 && JoinWords(r.words) == text
    ensures r.chars == WithoutSpaces(text)
  {
    var ws := SplitWords(text);
    JoinSplit(text);
    CharsAreNonSpaces(text);
    WordCount(text);
    SplitResult(ws, Flatten(ws))
  }

  /** Joining the words with single spaces gives the text back. */
  lemma {:induction false} JoinSplit(s: string)
    ensures JoinWords(SplitWords(s)) == s
  {
    if s != [] {
      var rest := SplitWords(s[1..]);
      JoinSplit(s[1..]);
      if s[0] == ' ' {
        assert SplitWords(s)[1..] == rest;
      } else {
        var ws := SplitWords(s);
        if |rest| == 1 {
          assert ws == [[s[0]] + rest[0]];
        } else {
          assert ws[1..] == rest[1..];
          assert JoinWords(rest) == rest[0] + " " + JoinWords(rest[1..]);
        }
      }
    }
  }

  /** Splitting words that hold no space after joining them gives the words
      back: the two directions of the round trip. */
  lemma {:induction false} SplitJoin(ws: seq<string>)
    requires |ws| >= 1
    requires forall k :: 0 <= k < |ws| ==> ' ' !in ws[k]
    ensures SplitWords(JoinWords(ws)) == ws
  {
    if |ws| == 1 {
      SplitWordNoSpace(ws[0]);
    } else {
      SplitJoin(ws[1..]);
      SplitPrefix(ws[0], JoinWords(ws[1..]));
      assert ws == [ws[0]] + ws[1..];
    }
  }

  lemma {:induction false} SplitWordNoSpace(w: string)
    requires ' ' !in w
    ensures SplitWords(w) == [w]
  {
    if w != [] {
      SplitWordNoSpace(w[1..]);
      assert w == [w[0]] + w[1..];
    }
  }

  lemma {:induction false} SplitPrefix(w: string, t: string)
    requires ' ' !in w
    ensures SplitWords(w + " " + t) == [w] + SplitWords(t)
  {
    if w == [] {
      assert (w + " " + t)[1..] == t;
    } else {
      assert (w + " " + t)[1..] == w[1..] + " " + t;
      SplitPrefix(w[1..], t);
      assert w == [w[0]] + w[1..];
    }
  }

  /** One word more than there are spaces, counting the empty words that
      consecutive, leading or trailing spaces produce. */
  lemma {:induction false} WordCount(s: string)
    ensures |SplitWords(s)| == CountSpaces(s) + 1
  {
    if s != [] {
      WordCount(s[1..]);
    }
  }

  /** The character spans hold exactly the non-space characters of the text,
      in order; so there are as many as the text is long minus its spaces. */
  lemma {:induction false} CharsAreNonSpaces(s: string)
    ensures Flatten(SplitWords(s)) == WithoutSpaces(s)
    ensures |Flatten(SplitWords(s))| == |s| - CountSpaces(s)
  {
    if s != [] {
      CharsAreNonSpaces(s[1..]);
      var rest := SplitWords(s[1..]);
      if s[0] != ' ' {
        assert rest == [rest[0]] + rest[1..];
        assert Flatten(rest) == rest[0] + Flatten(rest[1..]);
        assert Flatten(SplitWords(s)) == [s[0]] + rest[0] + Flatten(rest[1..]);
      } else {
        assert Flatten(SplitWords(s)) == Flatten(rest);
      }
      WithoutSpacesLength(s);
    }
  }

  lemma {:induction false} WithoutSpacesLength(s: string)
    ensures |WithoutSpaces(s)| == |s| - CountSpaces(s)
  {
    if s != [] {
      WithoutSpacesLength(s[1..]);
    }
  }
}
