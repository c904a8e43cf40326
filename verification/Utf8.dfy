/** UTF-8 as sections 3 and 4 of RFC 3629 define it, and what filtering a line does to text. */
module Utf8 {
  import opened Base
  import opened Framing

  /** Unicode scalar values. */
  predicate Scalar(c: int) {
    0 <= c <= 0x10FFFF && !(0xD800 <= c <= 0xDFFF)
  }

  datatype Character = Character(point: int, width: nat)

  predicate Tail(b: byte) {
    0x80 <= b <= 0xBF
  }

  function Low(b: byte): int
    requires Tail(b)
  {
    b as int - 0x80
  }

  // One function for each of UTF8-2, UTF8-3 and UTF8-4 in the grammar of section 4.

  predicate Two(s: seq<byte>) {
    |s| >= 2 && 0xC2 <= s[0] <= 0xDF && Tail(s[1])
  }

  predicate Three(s: seq<byte>) {
    && |s| >= 3 && Tail(s[1]) && Tail(s[2])
    && (|| (s[0] == 0xE0 && 0xA0 <= s[1])
        || 0xE1 <= s[0] <= 0xEC
        || (s[0] == 0xED && s[1] <= 0x9F)
        || 0xEE <= s[0] <= 0xEF)
  }

  predicate Four(s: seq<byte>) {
    && |s| >= 4 && Tail(s[1]) && Tail(s[2]) && Tail(s[3])
    && (|| (s[0] == 0xF0 && 0x90 <= s[1])
        || 0xF1 <= s[0] <= 0xF3
        || (s[0] == 0xF4 && s[1] <= 0x8F))
  }

  /** The character in front. */
  function First(s: seq<byte>): (r: Option<Character>)
    ensures r.Some? ==> 1 <= r.value.width <= |s| && Scalar(r.value.point)
  {
    if s == [] then None
    else if s[0] <= 0x7F then Some(Character(s[0] as int, 1))
    else if Two(s) then Some(Character((s[0] as int - 0xC0) * 64 + Low(s[1]), 2))
    else if Three(s) then Some(Character(((s[0] as int - 0xE0) * 64 + Low(s[1])) * 64 + Low(s[2]), 3))
    else if Four(s) then
      Some(Character((((s[0] as int - 0xF0) * 64 + Low(s[1])) * 64 + Low(s[2])) * 64 + Low(s[3]), 4))
    else None
  }

  /** The code points of well-formed text. */
  function Points(s: seq<byte>): Option<seq<int>>
    decreases |s|
  {
    if s == [] then Some([])
    else
      match First(s)
      case None => None
      case Some(c) =>
        match Points(s[c.width..])
        case None => None
        case Some(rest) => Some([c.point] + rest)
  }

  // -------------------------------------------------------------- the encoding of section 3

  function Bytes(c: int): (r: seq<byte>)
    requires Scalar(c)
    ensures 1 <= |r| <= 4
  {
    if c < 0x80 then [c as byte]
    else
      var last := (0x80 + c % 64) as byte;
      var high := c / 64;
      if c < 0x800 then [(0xC0 + high) as byte, last]
      else
        var third := (0x80 + high % 64) as byte;
        if c < 0x1_0000 then [(0xE0 + high / 64) as byte, third, last]
        else [(0xF0 + high / 64 / 64) as byte, (0x80 + high / 64 % 64) as byte, third, last]
  }

  predicate Scalars(points: seq<int>) {
    forall c :: c in points ==> Scalar(c)
  }

  function Written(points: seq<int>): seq<byte>
    requires Scalars(points)
  {
    if points == [] then [] else Bytes(points[0]) + Written(points[1..])
  }

  lemma FirstOfBytes(c: int, rest: seq<byte>)
    requires Scalar(c)
    ensures First(Bytes(c) + rest) == Some(Character(c, |Bytes(c)|))
  {
    var s := Bytes(c) + rest;
    assert forall i :: 0 <= i < |Bytes(c)| ==> s[i] == Bytes(c)[i];
    if c < 0x80 {
    } else if c < 0x800 {
      assert Two(s);
    } else if c < 0x1_0000 {
      assert Three(s) && !Two(s);
    } else {
      assert Four(s) && !Three(s) && !Two(s);
    }
  }

  lemma Digits(high: int, low: int)
    requires 0 <= high && 0 <= low < 64
    ensures (high * 64 + low) / 64 == high && (high * 64 + low) % 64 == low
  {
  }

  lemma BytesOfThree(s: seq<byte>)
    requires First(s).Some? && First(s).value.width == 3
    ensures s[..3] == Bytes(First(s).value.point)
  {
    Digits(s[0] as int - 0xE0, Low(s[1]));
    Digits((s[0] as int - 0xE0) * 64 + Low(s[1]), Low(s[2]));
  }

  lemma BytesOfFour(s: seq<byte>)
    requires First(s).Some? && First(s).value.width == 4
    ensures s[..4] == Bytes(First(s).value.point)
  {
    var top := (s[0] as int - 0xF0) * 64 + Low(s[1]);
    Digits(s[0] as int - 0xF0, Low(s[1]));
    Digits(top, Low(s[2]));
    Digits(top * 64 + Low(s[2]), Low(s[3]));
  }

  lemma BytesOfFirst(s: seq<byte>)
    requires First(s).Some?
    ensures s[..First(s).value.width] == Bytes(First(s).value.point)
  {
    match First(s).value.width
    case 3 => BytesOfThree(s);
    case 4 => BytesOfFour(s);
    case _ =>
  }

  lemma PointsStep(s: seq<byte>, c: Character, rest: seq<byte>)
    requires First(s) == Some(c) && s[c.width..] == rest && Points(rest).Some?
    ensures Points(s) == Some([c.point] + Points(rest).value)
  {
  }

  /** The reader above accepts exactly the encodings of sequences of scalar values, and reads each as
      what was written. */
  lemma {:induction false} PointsOfWritten(points: seq<int>)
    requires Scalars(points)
    ensures Points(Written(points)) == Some(points)
  {
    if points == [] {
    } else {
      var rest := Written(points[1..]);
      PointsOfWritten(points[1..]);
      FirstOfBytes(points[0], rest);
      assert (Bytes(points[0]) + rest)[|Bytes(points[0])|..] == rest;
      PointsStep(Written(points), Character(points[0], |Bytes(points[0])|), rest);
      assert points == [points[0]] + points[1..];
    }
  }

  lemma NothingWritten()
    ensures Scalars([]) && Written([]) == []
  {
  }

  lemma WrittenStep(c: int, rest: seq<int>)
    requires Scalar(c) && Scalars(rest)
    ensures Scalars([c] + rest)
    ensures Written([c] + rest) == Bytes(c) + Written(rest)
  {
  }

  lemma {:induction false} WrittenOfPoints(s: seq<byte>)
    requires Points(s).Some?
    ensures Scalars(Points(s).value)
    ensures Written(Points(s).value) == s
    decreases |s|
  {
    hide First, Bytes, Scalar, Scalars, Written;
    if s == [] {
      NothingWritten();
    } else {
      var c := First(s).value;
      WrittenOfPoints(s[c.width..]);
      BytesOfFirst(s);
      WrittenStep(c.point, Points(s[c.width..]).value);
      assert Points(s).value == [c.point] + Points(s[c.width..]).value;
      assert s == s[..c.width] + s[c.width..];
    }
  }

  // ------------------------------------------------------------------------------ filtering

  /** The code points that filtering removes. */
  predicate Removed(c: int) {
    c == 0 || c == 8 || c == 9 || c == 10 || c == 13
  }

  function Kept(points: seq<int>): seq<int> {
    if points == [] then [] else (if Removed(points[0]) then [] else [points[0]]) + Kept(points[1..])
  }

  lemma {:induction false} NothingToDrop(s: seq<byte>)
    requires forall i :: 0 <= i < |s| ==> !Dropped(s[i])
    ensures Sanitized(s) == s
  {
    SanitizedIsValid(s);
  }

  /** Filtering takes whole characters: it drops the one in front, or keeps all of its bytes. */
  lemma FirstIsWhole(s: seq<byte>)
    requires First(s).Some?
    ensures var c := First(s).value;
            Sanitized(s[..c.width]) == if Removed(c.point) then [] else s[..c.width]
    ensures First(s).value.width > 1 ==> !Removed(First(s).value.point)
  {
    var c := First(s).value;
    var front := s[..c.width];
    if Removed(c.point) {
      assert front == [s[0]] && front[1..] == [];
    } else {
      NothingToDrop(front);
    }
  }

  lemma FirstStands(s: seq<byte>, rest: seq<byte>)
    requires First(s).Some?
    ensures First(s[..First(s).value.width] + rest) == First(s)
  {
  }

  lemma SanitizedFront(s: seq<byte>)
    requires First(s).Some?
    ensures var c := First(s).value;
            var rest := Sanitized(s[c.width..]);
            Sanitized(s) == if Removed(c.point) then rest else s[..c.width] + rest
  {
    var c := First(s).value;
    var front, rest := s[..c.width], s[c.width..];
    FirstIsWhole(s);
    assert s == front + rest;
    SanitizedConcat(front, rest);
    hide First, Sanitized;
    assert [] + Sanitized(rest) == Sanitized(rest);
  }

  /** Filtering bytes is filtering code points: well-formed text stays well-formed and loses exactly
      the removed code points. */
  lemma {:induction false} SanitizedPoints(s: seq<byte>)
    requires Points(s).Some?
    ensures Points(Sanitized(s)) == Some(Kept(Points(s).value))
    decreases |s|
  {
    if s == [] {
    } else {
      hide Sanitized, First, Kept, Removed;
      var c := First(s).value;
      var front, rest := s[..c.width], s[c.width..];
      SanitizedPoints(rest);
      SanitizedFront(s);
      KeptStep(c.point, Points(rest).value);
      if !Removed(c.point) {
        FirstStands(s, Sanitized(rest));
        assert (front + Sanitized(rest))[c.width..] == Sanitized(rest);
        PointsStep(front + Sanitized(rest), c, Sanitized(rest));
      } else {
        assert [] + Kept(Points(rest).value) == Kept(Points(rest).value);
      }
    }
  }

  lemma KeptStep(c: int, rest: seq<int>)
    ensures Kept([c] + rest) == (if Removed(c) then [] else [c]) + Kept(rest)
  {
  }

  // ---------------------------------------------------------- when filtering mends broken text

  /** A byte that filtering drops stands before a byte that continues a character. */
  predicate Splits(s: seq<byte>) {
    exists i :: 0 <= i < |s| - 1 && DropsBefore(s, i)
  }

  predicate DropsBefore(s: seq<byte>, i: nat)
    requires i < |s| - 1
  {
    Dropped(s[i]) && Tail(s[i + 1])
  }

  lemma SplitsLater(s: seq<byte>, k: nat)
    requires k <= |s| && !Splits(s)
    ensures !Splits(s[k..])
  {
    var rest := s[k..];
    forall i: nat | i < |rest| - 1
      ensures !DropsBefore(rest, i)
    {
      assert !DropsBefore(s, k + i);
    }
  }

  /** Well-formed text has a whole character after each dropped byte. */
  lemma {:induction false} WellFormedNeverSplits(s: seq<byte>)
    requires Points(s).Some?
    ensures !Splits(s)
    decreases |s|
  {
    if s == [] {
    } else {
      var w := First(s).value.width;
      var rest := s[w..];
      WellFormedNeverSplits(rest);
      forall i: nat | i < |s| - 1
        ensures !DropsBefore(s, i)
      {
        if i >= w {
          assert !DropsBefore(rest, i - w);
        } else if i == w - 1 {
          assert First(rest).Some? && s[i + 1] == rest[0];
        }
      }
    }
  }

  /** After a dropped byte the next byte that is kept does not continue a character. */
  lemma {:induction false} NoTailAfterDropped(s: seq<byte>)
    requires s != [] && Dropped(s[0]) && !Splits(s)
    ensures Sanitized(s) != [] ==> !Tail(Sanitized(s)[0])
    decreases |s|
  {
    if |s| > 1 {
      assert !DropsBefore(s, 0);
      SplitsLater(s, 1);
      if Dropped(s[1]) {
        NoTailAfterDropped(s[1..]);
      }
    }
  }

  /** The bytes of a character that filtering leaves adjacent were adjacent before. */
  lemma {:induction false} TailsWereAdjacent(s: seq<byte>, w: nat)
    requires s != [] && !Dropped(s[0]) && !Splits(s)
    requires 0 < w <= |Sanitized(s)| && forall i :: 0 < i < w ==> Tail(Sanitized(s)[i])
    ensures w <= |s| && s[..w] == Sanitized(s)[..w]
    decreases w
  {
    var kept, rest := Sanitized(s), s[1..];
    assert kept == [s[0]] + Sanitized(rest);
    if w > 1 {
      assert rest != [] && kept[1] == Sanitized(rest)[0];
      SplitsLater(s, 1);
      if Dropped(rest[0]) {
        NoTailAfterDropped(rest);
        assert false;
      } else {
        forall i | 0 < i < w - 1
          ensures Tail(Sanitized(rest)[i])
        {
          assert Sanitized(rest)[i] == kept[i + 1];
        }
        TailsWereAdjacent(rest, w - 1);
        assert s[..w] == [s[0]] + rest[..w - 1];
        assert kept[..w] == [s[0]] + Sanitized(rest)[..w - 1];
      }
    }
  }

  lemma TailsOfFirst(s: seq<byte>)
    requires First(s).Some?
    ensures forall i :: 0 < i < First(s).value.width ==> Tail(s[i])
  {
  }

  /** A dropped byte in front is a character of its own. */
  lemma DroppedIsFirst(s: seq<byte>)
    requires s != [] && Dropped(s[0])
    ensures First(s) == Some(Character(s[0] as int, 1)) && Sanitized(s) == Sanitized(s[1..])
  {
    assert [] + Sanitized(s[1..]) == Sanitized(s[1..]);
  }

  lemma KeptFront(s: seq<byte>, w: nat)
    requires w <= |s| && w <= |Sanitized(s)| && s[..w] == Sanitized(s)[..w]
    ensures Sanitized(s) == s[..w] + Sanitized(s[w..])
  {
    hide Sanitized, Dropped;
    SanitizedIsValid(s);
    forall i | 0 <= i < w
      ensures !Dropped(s[..w][i])
    {
      assert s[..w][i] == Sanitized(s)[i];
    }
    NothingToDrop(s[..w]);
    assert s == s[..w] + s[w..];
    SanitizedConcat(s[..w], s[w..]);
  }

  lemma {:induction false} UnsplitIsWellFormed(s: seq<byte>)
    requires Points(Sanitized(s)).Some? && !Splits(s)
    ensures Points(s).Some?
    decreases |s|
  {
    hide First, Sanitized, Splits, Dropped;
    if s == [] {
    } else {
      if Dropped(s[0]) {
        DroppedIsFirst(s);
        SplitsLater(s, 1);
        UnsplitIsWellFormed(s[1..]);
        PointsStep(s, First(s).value, s[1..]);
      } else {
        SanitizedHead(s);
        var kept := Sanitized(s);
        var c := First(kept).value;
        TailsOfFirst(kept);
        TailsWereAdjacent(s, c.width);
        KeptFront(s, c.width);
        FirstStands(kept, s[c.width..]);
        assert s == kept[..c.width] + s[c.width..];
        assert kept[c.width..] == Sanitized(s[c.width..]);
        SplitsLater(s, c.width);
        UnsplitIsWellFormed(s[c.width..]);
        PointsStep(s, c, s[c.width..]);
      }
    }
  }

  lemma SanitizedHead(s: seq<byte>)
    requires s != [] && !Dropped(s[0])
    ensures Sanitized(s) != []
  {
  }

  /** Filtering turns broken text into well-formed text exactly when it brings bytes of a character
      together: text is well-formed exactly if what is left of it is, and no dropped byte stands before
      a continuation byte. */
  lemma WellFormedExactly(s: seq<byte>)
    ensures Points(s).Some? <==> Points(Sanitized(s)).Some? && !Splits(s)
  {
    hide Points, Sanitized, Splits;
    if Points(s).Some? {
      SanitizedPoints(s);
      WellFormedNeverSplits(s);
    } else if Points(Sanitized(s)).Some? && !Splits(s) {
      UnsplitIsWellFormed(s);
    }
  }

  /** Text that is not well-formed can become well-formed: a newline inside a character is removed. */
  lemma SanitizingMayMend()
    ensures exists s :: Points(s).None? && Points(Sanitized(s)).Some?
  {
    var s: seq<byte> := [0xC3, 10, 0xA9];
    assert First(s).None?;
    assert s[1..] == [10, 0xA9] && s[1..][1..] == [0xA9] && s[1..][1..][1..] == [];
    assert Sanitized(s) == [0xC3, 0xA9];
    var mended: seq<byte> := [0xC3, 0xA9];
    assert First(mended) == Some(Character(0xE9, 2)) && mended[2..] == [];
    PointsStep(mended, Character(0xE9, 2), []);
  }
}
