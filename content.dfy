/** Normalisation of the fetched README text before it is indexed: the text
    is cut to its first 5000 code units when it is longer than that, and only
    then are the line feeds removed. A JavaScript string is a sequence of
    UTF-16 code units, and `length` and `substring` count and cut code units,
    so the text is modelled as such a sequence: a cut may fall between the two
    halves of a surrogate pair. */
module Content {

  /** One UTF-16 code unit. */
  newtype CodeUnit = x: int | 0 <= x < 0x1_0000

  /** A JavaScript string, as its code units. */
  type Text = seq<CodeUnit>

  /** The code unit U+000A that `/\n/g` matches. */
  const LineFeed: CodeUnit := 10

  /** The largest number of code units kept from the README text. */
  const Limit := 5000

  /** The text with every line feed removed and everything else kept in order. */
  function StripNewlines(s: Text): (r: Text)
    ensures LineFeed !in r
    ensures |r| <= |s|
    ensures LineFeed !in s ==> r == s
  {
    if s == [] then []
    else if s[0] == LineFeed then StripNewlines(s[1..])
    else
      assert LineFeed !in s ==> LineFeed !in s[1..] by {
        assert s == [s[0]] + s[1..];
      }
      [s[0]] + StripNewlines(s[1..])
  }

  /** The number of line feeds in `s`. */
  function NewlineCount(s: Text): nat {
    if s == [] then 0
    else (if s[0] == LineFeed then 1 else 0) + NewlineCount(s[1..])
  }

  /** The content placed in the search document for README text `content`. */
  function NormalizeContent(content: Text): (r: Text)
    ensures LineFeed !in r
    ensures |r| <= Limit
    ensures |content| <= Limit && LineFeed !in content ==> r == content
  {
    if |content| > Limit then StripNewlines(content[..Limit])
    else StripNewlines(content)
  }

  lemma {:induction false} StripLength(s: Text)
    ensures |StripNewlines(s)| == |s| - NewlineCount(s)
  {
    if s != [] {
      StripLength(s[1..]);
    }
  }

  /** Removing line feeds distributes over concatenation. */
  lemma {:induction false} StripAppend(a: Text, b: Text)
    ensures StripNewlines(a + b) == StripNewlines(a) + StripNewlines(b)
  {
    if a == [] {
      assert a + b == b;
    } else {
      assert (a + b)[0] == a[0];
      assert (a + b)[1..] == a[1..] + b;
      StripAppend(a[1..], b);
    }
  }

  lemma {:induction false} NewlinePresentCounted(s: Text)
    requires LineFeed in s
    ensures NewlineCount(s) > 0
  {
    if s[0] != LineFeed {
      assert s == [s[0]] + s[1..];
      NewlinePresentCounted(s[1..]);
    }
  }

  /** The exact length of the normalised text: the code units of the window
      kept (the first 5000 at most) minus the line feeds inside that window. */
  lemma NormalizeLength(content: Text)
    ensures var n := if |content| > Limit then Limit else |content|;
            |NormalizeContent(content)| == n - NewlineCount(content[..n])
  {
    if |content| > Limit {
      StripLength(content[..Limit]);
    } else {
      assert content[..|content|] == content;
      StripLength(content);
    }
  }

  /** Cutting before stripping yields a prefix of the fully stripped text. */
  lemma NormalizeIsStrippedPrefix(content: Text)
    ensures NormalizeContent(content) <= StripNewlines(content)
  {
    if |content| > Limit {
      assert content == content[..Limit] + content[Limit..];
      StripAppend(content[..Limit], content[Limit..]);
    }
  }

  /** A line feed inside the first 5000 code units of a longer text makes the
      normalised text shorter than 5000: the window is cut before the line
      feeds are stripped, not after. */
  lemma NewlineInWindowShortens(content: Text, i: nat)
    requires |content| > Limit
    requires i < Limit && content[i] == LineFeed
    ensures |NormalizeContent(content)| < Limit
  {
    assert content[..Limit][i] == LineFeed;
    NewlinePresentCounted(content[..Limit]);
    NormalizeLength(content);
  }

  /** The cut counts code units, not characters: of "a" followed by 2500
      copies of U+1F600 (5001 code units) the first 5000 are kept, and they
      end in the high half of a surrogate pair. */
  lemma CutCanSplitSurrogatePair()
    ensures var emoji := seq(2 * 2500, i requires 0 <= i => if i % 2 == 0 then 0xD83D as CodeUnit else 0xDE00 as CodeUnit);
            var text := [97 as CodeUnit] + emoji;
            && |text| == Limit + 1
            && |NormalizeContent(text)| == Limit
            && NormalizeContent(text)[Limit - 1] == 0xD83D
  {
    var emoji := seq(2 * 2500, i requires 0 <= i => if i % 2 == 0 then 0xD83D as CodeUnit else 0xDE00 as CodeUnit);
    var text := [97 as CodeUnit] + emoji;
    assert LineFeed !in text[..Limit] by {
      forall i | 0 <= i < Limit ensures text[..Limit][i] != LineFeed {
        if i > 0 { assert text[i] == emoji[i - 1]; }
      }
    }
    assert text[Limit - 1] == emoji[Limit - 2];
  }
}
