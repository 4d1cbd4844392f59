/** The testimonial carousel of the public site: the star strip and initials
    of each card, and the row of dots that marks the current slide. */
module TestimonialSection {
  import opened JsText
  import opened Seqs
  import opened Stars

  /** The part of a fixed testimonial this model reads. */
  datatype Card = Card(name: string, rating: int)

  /** The testimonials of the section, in order. */
  const Cards: seq<Card> := [
    Card("Sarah Wijaya", 5),
    Card("Budi Santoso", 5),
    Card("Linda Kusuma", 5),
    Card("Ahmad Rizky", 5),
    Card("Maria Chen", 5)]

  /** `StarRating`: five stars, the first `rating` of them filled. */
  function StarRating(rating: int): (stars: seq<bool>)
    ensures |stars| == StarCount
    ensures forall i :: 0 <= i < StarCount ==> (stars[i] <==> i < rating)
    ensures 0 <= rating <= StarCount ==> CountTrue(stars) == rating
  {
    FiveStars(rating)
  }

  /** `n[0]`, which is `undefined` for an empty piece and is then joined as
      nothing. */
  function FirstChar(s: string): (r: string)
    ensures |r| <= 1 && (s != "" <==> |r| == 1)
    ensures s != "" ==> r[0] == s[0]
  {
    if s == "" then "" else [s[0]]
  }

  /** `.map(n => n[0]).join('')` */
  function InitialsOf(words: seq<string>): (r: string)
    ensures |r| <= |words|
  {
    if words == [] then "" else FirstChar(words[0]) + InitialsOf(words[1..])
  }

  /** The avatar fallback, `name.split(' ').map(n => n[0]).join('')`. */
  function Initials(name: string): (r: string)
    ensures forall c :: c in r ==> c in name
  {
    InitialsInName(name);
    InitialsOf(Split(name, ' '))
  }

  /** Every initial is the first character of a non-empty word. */
  lemma {:induction false} InitialsOfWords(words: seq<string>)
    requires forall i :: 0 <= i < |words| ==> words[i] != ""
    ensures |InitialsOf(words)| == |words|
    ensures forall i :: 0 <= i < |words| ==> InitialsOf(words)[i] == words[i][0]
  {
    if words != [] {
      InitialsOfWords(words[1..]);
    }
  }

  lemma {:induction false} InitialsOfPiecesInJoin(words: seq<string>)
    ensures forall c :: c in InitialsOf(words) ==> exists i :: 0 <= i < |words| && c in words[i]
  {
    if words != [] {
      InitialsOfPiecesInJoin(words[1..]);
      forall c | c in InitialsOf(words)
        ensures exists i :: 0 <= i < |words| && c in words[i]
      {
        assert InitialsOf(words) == FirstChar(words[0]) + InitialsOf(words[1..]);
        if c in FirstChar(words[0]) {
          assert c in words[0];
        } else {
          assert c in InitialsOf(words[1..]);
          var i :| 0 <= i < |words[1..]| && c in words[1..][i];
          assert c in words[i + 1];
        }
      }
    }
  }

  lemma InitialsInName(name: string)
    ensures forall c :: c in InitialsOf(Split(name, ' ')) ==> c in name
  {
    var parts := Split(name, ' ');
    InitialsOfPiecesInJoin(parts);
    forall i | 0 <= i < |parts|
      ensures forall c :: c in parts[i] ==> c in name
    {
      PieceInJoin(parts, [' '], i);
    }
  }

  /** Every piece of a join occurs in the joined text. */
  lemma {:induction false} PieceInJoin(parts: seq<string>, sep: string, i: int)
    requires 0 <= i < |parts|
    ensures forall c :: c in parts[i] ==> c in Join(parts, sep)
  {
    if |parts| > 1 {
      if i > 0 {
        PieceInJoin(parts[1..], sep, i - 1);
        assert parts[1..][i - 1] == parts[i];
      }
      assert Join(parts, sep) == parts[0] + sep + Join(parts[1..], sep);
    }
  }

  /** A name of words separated by single spaces shows the first letter of
      each word. */
  lemma InitialsOfName(words: seq<string>)
    requires |words| >= 1
    requires forall i :: 0 <= i < |words| ==> words[i] != "" && ' ' !in words[i]
    ensures |Initials(Join(words, " "))| == |words|
    ensures forall i :: 0 <= i < |words| ==> Initials(Join(words, " "))[i] == words[i][0]
  {
    SplitJoin(words, ' ');
    InitialsOfWords(words);
  }

  /** A double space yields an empty piece, which adds no initial. */
  lemma DoubleSpaceAddsNothing()
    ensures Initials("Ahmad  Rizky") == "AR"
  {
    var words := ["Ahmad", "", "Rizky"];
    assert Join(words, " ") == "Ahmad  Rizky" by {
      JoinOfThree("Ahmad", "", "Rizky");
    }
    assert Split(Join(words, " "), ' ') == words by {
      SplitJoin(words, ' ');
    }
    InitialsOfThree("Ahmad", "", "Rizky");
  }

  lemma JoinOfThree(a: string, b: string, c: string)
    ensures Join([a, b, c], " ") == a + " " + b + " " + c
  {
    assert [a, b, c][1..] == [b, c];
    assert [b, c][1..] == [c];
    assert Join([c], " ") == c;
    assert Join([b, c], " ") == b + " " + c;
    assert Join([a, b, c], " ") == a + " " + (b + " " + c);
  }

  lemma InitialsOfThree(a: string, b: string, c: string)
    ensures InitialsOf([a, b, c]) == FirstChar(a) + FirstChar(b) + FirstChar(c)
  {
    assert [a, b, c][1..] == [b, c];
    assert [b, c][1..] == [c];
    assert [c][1..] == [];
    assert InitialsOf([c]) == FirstChar(c) + "";
    assert InitialsOf([b, c]) == FirstChar(b) + FirstChar(c);
    assert InitialsOf([a, b, c]) == FirstChar(a) + (FirstChar(b) + FirstChar(c));
  }

  /** `current`: the 1-based position of the selected slide, `0` before the
      carousel has reported. */
  function Current(selectedSnap: int): (current: int)
    ensures current - 1 == selectedSnap
  {
    selectedSnap + 1
  }

  /** The dots under the carousel, one per slide; dot `i` is active when
      `i === current - 1`. */
  function Dots(count: nat, current: int): (dots: seq<bool>)
    ensures |dots| == count
    ensures forall i :: 0 <= i < count ==> (dots[i] <==> i + 1 == current)
  {
    seq(count, i => i == current - 1)
  }

  /** Once the carousel has reported, exactly one dot is active: the one of
      the selected slide. */
  lemma ExactlyOneActiveDot(count: nat, selectedSnap: int)
    requires 0 <= selectedSnap < count
    ensures Dots(count, Current(selectedSnap))[selectedSnap]
    ensures CountTrue(Dots(count, Current(selectedSnap))) == 1
  {
    CountSingleFlag(count, selectedSnap);
    assert Dots(count, Current(selectedSnap)) == seq(count, i => i == selectedSnap);
  }

  /** Every card of the section shows five filled stars. */
  lemma EveryCardHasFiveStars(i: int)
    requires 0 <= i < |Cards|
    ensures CountTrue(StarRating(Cards[i].rating)) == StarCount
  {
  }
}
