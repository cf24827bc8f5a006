/** The identity a session takes on after authentication: a user ID (typed
    in, or generated from fixed word lists) and a display colour. The random
    choices are parameters: `Draws` holds the values `rand.Intn` returned. */
module Identity {
  import opened Text

  const Adjectives: seq<string> := ["快乐", "聪明", "安静", "活泼", "神秘", "勇敢", "幽默", "优雅", "可爱", "帅气"]
  const Nouns: seq<string> := ["小猫", "小狗", "熊猫", "老虎", "兔子", "狐狸", "海豚", "老鹰", "狮子", "蝴蝶"]

  const Colors: seq<string> := [
    "#00ff00", "#00ffff", "#ff0000", "#ff00ff", "#ffff00", "#0000ff", "#ff6600", "#9933ff",
    "#33ff99", "#ff3399", "#3399ff", "#ffcc00", "#00ccff", "#ff9900", "#66ff33", "#cc00ff",
    "#ff3333", "#33ffcc", "#ffcc33", "#9966ff", "#33ccff", "#ff66b3", "#66ff99", "#ff99cc",
    "#66ccff", "#ffcc66", "#99ffcc", "#cc66ff", "#ff3366", "#3366ff"
  ]

  /** The values of `rand.Intn(len(adjectives))`, `rand.Intn(len(nouns))`,
      `rand.Intn(900)` and `rand.Intn(len(colors))`. */
  datatype Draws = Draws(adjective: nat, noun: nat, number: nat, color: nat)

  /** What `rand.Intn(n)` guarantees: each draw lies in [0, n). */
  predicate ValidDraws(d: Draws) {
    d.adjective < |Adjectives| && d.noun < |Nouns| && d.number < 900 && d.color < |Colors|
  }

  /** `generateRandomID`: adjective, noun, then a number from 100 to 999. */
  function RandomID(d: Draws): (id: string)
    requires ValidDraws(d)
    ensures |id| == 7 && id[..4] == Adjectives[d.adjective] + Nouns[d.noun] && IsDigits(id[4..])
  {
    ThreeDigits(d.number + 100);
    Adjectives[d.adjective] + Nouns[d.noun] + NatToString(d.number + 100)
  }

  /** A generated ID is an adjective and a noun from the lists followed by
      exactly three digits whose value lies in [100, 999]. */
  lemma RandomIDShape(d: Draws)
    requires ValidDraws(d)
    ensures var id := RandomID(d);
      && |id| == 7
      && id[..2] == Adjectives[d.adjective] && id[2..4] == Nouns[d.noun]
      && IsDigits(id[4..]) && 100 <= DigitsValue(id[4..]) <= 999
  {
    var id := RandomID(d);
    WordLengths(d.adjective);
    WordLengths(d.noun);
    PairHalves(id[..4], Adjectives[d.adjective], Nouns[d.noun]);
    ThreeDigits(d.number + 100);
    assert id[4..] == NatToString(d.number + 100);
  }

  /** Every word of both lists is two code points long. */
  lemma WordLengths(k: nat)
    ensures k < |Adjectives| ==> |Adjectives[k]| == 2
    ensures k < |Nouns| ==> |Nouns[k]| == 2
  {
  }

  /** The two halves of a joined pair of words. */
  lemma PairHalves(w: string, a: string, n: string)
    requires w == a + n
    ensures w[..|a|] == a && w[|a|..] == n
  {
  }

  /** `generateRandomColor`. */
  function RandomColor(d: Draws): (c: string)
    requires ValidDraws(d)
    ensures c in Colors
  {
    Colors[d.color]
  }

  /** The user ID chosen in the identity stage: a generated one when the
      trimmed answer is empty, otherwise the trimmed answer with every '\n'
      and then every '\r' removed. No other session is consulted, so two
      sessions may end up with the same ID. */
  function UserID(answer: string, d: Draws): (id: string)
    requires ValidDraws(d)
    ensures TrimSpace(answer) == [] ==> id == RandomID(d)
    ensures TrimSpace(answer) != [] ==>
      |id| <= |TrimSpace(answer)| && forall x :: x in id ==> x in TrimSpace(answer)
  {
    var custom := TrimSpace(answer);
    if custom == "" then RandomID(d) else Remove(Remove(custom, '\n'), '\r')
  }

  /** Removing a code point keeps any other first code point in front. */
  lemma RemoveKeepsHead(s: string, c: char)
    requires s != [] && s[0] != c
    ensures Remove(s, c) != [] && Remove(s, c)[0] == s[0]
  {
  }

  /** The word lists hold no white space and no line break. */
  lemma WordsPrintable(k: nat)
    ensures k < |Adjectives| ==> NoneOf(Adjectives[k], IsSpace)
    ensures k < |Nouns| ==> NoneOf(Nouns[k], IsSpace)
  {
  }

  /** A generated ID holds no white space, so in particular no line break. */
  lemma RandomIDPrintable(d: Draws)
    requires ValidDraws(d)
    ensures var id := RandomID(d);
      id != [] && NoneOf(id, IsSpace) && '\n' !in id && '\r' !in id
  {
    WordsPrintable(d.adjective);
    WordsPrintable(d.noun);
    var digits := NatToString(d.number + 100);
    assert NoneOf(digits, IsSpace);
    var id := RandomID(d);
    assert NoneOf(id, IsSpace);
    assert forall i :: 0 <= i < |id| ==> id[i] != '\n' && id[i] != '\r';
  }

  /** A non-empty trimmed string starts with a non-space code point. */
  lemma TrimmedStartsSolid(s: string)
    requires TrimSpace(s) != []
    ensures !IsSpace(TrimSpace(s)[0])
  {
    TrimFuncEnds(s, IsSpace);
  }

  /** A typed ID: never empty, no line break, and exactly the trimmed
      answer when that holds no line break. */
  lemma CustomIDWellFormed(custom: string)
    requires custom != [] && !IsSpace(custom[0])
    ensures var id := Remove(Remove(custom, '\n'), '\r');
      && id != [] && '\n' !in id && '\r' !in id
      && ('\n' !in custom && '\r' !in custom ==> id == custom)
  {
    RemoveKeepsHead(custom, '\n');
    RemoveKeepsHead(Remove(custom, '\n'), '\r');
    if '\n' !in custom && '\r' !in custom {
      RemoveAbsent(custom, '\n');
      RemoveAbsent(custom, '\r');
    }
  }

  /** A user ID is never empty and never holds a line break. A blank
      answer gets a generated ID; a typed one is the trimmed answer with
      every '\n' and then every '\r' removed, so it is taken exactly as
      trimmed when it has no line break inside. */
  lemma UserIDWellFormed(answer: string, d: Draws)
    requires ValidDraws(d)
    ensures var id := UserID(answer, d);
      var custom := TrimSpace(answer);
      && id != [] && '\n' !in id && '\r' !in id
      && (custom == [] ==> id == RandomID(d))
      && (custom != [] ==> id == Remove(Remove(custom, '\n'), '\r'))
      && (custom != [] && '\n' !in custom && '\r' !in custom ==> id == custom)
  {
    var custom := TrimSpace(answer);
    if custom == "" {
      RandomIDPrintable(d);
    } else {
      TrimmedStartsSolid(answer);
      CustomIDWellFormed(custom);
    }
  }

  /** Removing a code point that does not occur changes nothing. */
  lemma {:induction false} RemoveAbsent(s: string, c: char)
    requires c !in s
    ensures Remove(s, c) == s
  {
    if s != [] {
      RemoveAbsent(s[1..], c);
    }
  }
}
