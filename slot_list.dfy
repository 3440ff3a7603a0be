/**
 * Splitting a slot list such as "A01;;A02;" into slot identifiers, as the
 * handler does with `strings.Split(message.Slots, ";")` followed by skipping
 * the empty pieces (main.go:148-151 and 174-177).
 */
module SlotList {

  const Separator: char := ';'

  /** A piece between separators never contains the separator. */
  predicate NoSeparator(w: string)
  {
    Separator !in w
  }

  /**
   * Go's `strings.Split(s, ";")`: the maximal separator-free pieces of `s`, in
   * order. There is always at least one piece; `Split("")` is `[""]` and a
   * trailing separator yields a trailing empty piece.
   */
  function Split(s: string): (r: seq<string>)
    ensures |r| >= 1
    ensures forall w :: w in r ==> NoSeparator(w)
    decreases |s|
  {
    if s == [] then [""]
    else
      var rest := Split(s[1..]);
      if s[0] == Separator then [""] + rest
      else assert rest[0] in rest; [[s[0]] + rest[0]] + rest[1..]
  }

  /** `strings.Join(ps, ";")`, the inverse of `Split`. */
  function Join(ps: seq<string>): string
    requires |ps| >= 1
    decreases |ps|
  {
    if |ps| == 1 then ps[0] else ps[0] + [Separator] + Join(ps[1..])
  }

  /** Joining the pieces back gives the original text. */
  lemma {:induction false} JoinSplit(s: string)
    ensures Join(Split(s)) == s
    decreases |s|
  {
    if s != [] {
      var rest := Split(s[1..]);
      JoinSplit(s[1..]);
      if s[0] == Separator {
        assert Split(s) == [""] + rest;
        assert ([""] + rest)[1..] == rest;
      } else {
        var r := [[s[0]] + rest[0]] + rest[1..];
        assert Split(s) == r;
        if |rest| > 1 {
          assert r[1..] == rest[1..];
        }
      }
    }
  }

  /** Splitting a separator-free word followed by `s` glues the word onto the first piece of `s`. */
  lemma {:induction false} SplitAfterWord(w: string, s: string)
    requires NoSeparator(w)
    ensures Split(w + s) == [w + Split(s)[0]] + Split(s)[1..]
    decreases |w|
  {
    if w != [] {
      assert (w + s)[1..] == w[1..] + s;
      assert (w + s)[0] == w[0];
      SplitAfterWord(w[1..], s);
      assert [w[0]] + (w[1..] + Split(s)[0]) == w + Split(s)[0];
    } else {
      assert w + s == s;
      assert w + Split(s)[0] == Split(s)[0];
      assert Split(s) == [Split(s)[0]] + Split(s)[1..];
    }
  }

  /** Splitting the join of separator-free pieces gives the pieces back. */
  lemma {:induction false} SplitJoin(ps: seq<string>)
    requires |ps| >= 1
    requires forall i :: 0 <= i < |ps| ==> NoSeparator(ps[i])
    ensures Split(Join(ps)) == ps
    decreases |ps|
  {
    if |ps| == 1 {
      SplitAfterWord(ps[0], "");
      assert ps[0] + "" == ps[0];
    } else {
      var tail := Join(ps[1..]);
      SplitJoin(ps[1..]);
      SplitAfterWord(ps[0], [Separator] + tail);
      assert ([Separator] + tail)[1..] == tail;
      assert Split([Separator] + tail) == [""] + ps[1..];
      assert ps[0] + [Separator] + tail == ps[0] + ([Separator] + tail);
      assert ps[0] + "" == ps[0];
    }
  }

  /** The pieces that are not empty, in order (the `if slotID == "" { continue }`). */
  function NonEmpty(ps: seq<string>): (r: seq<string>)
    ensures forall x :: x in r <==> x in ps && x != ""
    ensures |r| <= |ps|
    decreases |ps|
  {
    if ps == [] then []
    else (if ps[0] == "" then [] else [ps[0]]) + NonEmpty(ps[1..])
  }

  /** The slot identifiers a slot list names: the non-empty pieces between separators. */
  function Segments(s: string): (r: seq<string>)
    ensures forall x :: x in r <==> x in Split(s) && x != ""
    ensures forall w :: w in r ==> w != "" && NoSeparator(w)
  {
    NonEmpty(Split(s))
  }

  /** Go's split of "A01;;A02;" keeps the empty pieces, the trailing one included. */
  lemma SplitExample()
    ensures Split("A01;;A02;") == ["A01", "", "A02", ""]
  {
    var pieces := ["A01", "", "A02", ""];
    assert Join(pieces) == "A01;;A02;" by {
      assert pieces[1..] == ["", "A02", ""] && pieces[2..] == ["A02", ""] && pieces[3..] == [""];
    }
    assert forall i :: 0 <= i < |pieces| ==> NoSeparator(pieces[i]);
    SplitJoin(pieces);
  }

  /** "A01;;A02;" names exactly A01 and A02: empty pieces are ignored wherever the separators stand. */
  lemma SegmentsExample()
    ensures Segments("A01;;A02;") == ["A01", "A02"]
  {
    var pieces := ["A01", "", "A02", ""];
    SplitExample();
    assert NonEmpty(pieces[3..]) == [];
    assert NonEmpty(pieces[2..]) == ["A02"];
    assert NonEmpty(pieces[1..]) == ["A02"];
  }

  /** An empty slot list, or one made only of separators, names no slot. */
  lemma SegmentsOfBlank(s: string)
    requires forall i :: 0 <= i < |s| ==> s[i] == Separator
    ensures Segments(s) == []
  {
    SplitOfSeparators(s);
    NonEmptyOfBlanks(Split(s));
  }

  lemma {:induction false} NonEmptyOfBlanks(ps: seq<string>)
    requires forall x :: x in ps ==> x == ""
    ensures NonEmpty(ps) == []
    decreases |ps|
  {
    if ps != [] {
      assert ps[0] in ps;
      assert forall x :: x in ps[1..] ==> x in ps;
      NonEmptyOfBlanks(ps[1..]);
    }
  }

  lemma {:induction false} SplitOfSeparators(s: string)
    requires forall i :: 0 <= i < |s| ==> s[i] == Separator
    ensures forall x :: x in Split(s) ==> x == ""
    decreases |s|
  {
    if s != [] {
      SplitOfSeparators(s[1..]);
    }
  }
}
