/**
 * The list of name-value pairs behind `URLSearchParams`, after the
 * application/x-www-form-urlencoded rules of the WHATWG URL Standard
 * (section 5.1), without percent-encoding: a string is read by cutting it at
 * every '&', skipping empty pieces and splitting each piece at its first '=';
 * `set` replaces the first pair of a name and drops the others, or appends;
 * `toString` writes `name=value` pieces joined by '&'.
 */
module FormUrlEncoded {
  import opened Wrappers
  import opened Text
  import opened Seqs

  datatype Pair = Pair(name: string, value: string)

  /** One piece of the input: nothing for an empty piece, otherwise the text up to the first '=' and the rest. */
  function PairOf(piece: string): (p: Option<Pair>)
    ensures p.None? <==> piece == ""
    ensures p.Some? ==> '=' !in p.value.name
    ensures p.Some? && '=' in piece ==> piece == p.value.name + "=" + p.value.value
    ensures p.Some? && '=' !in piece ==> p.value == Pair(piece, "")
  {
    if piece == "" then None
    else
      var i := IndexOf(piece, '=');
      if i < 0 then Some(Pair(piece, ""))
      else
        assert piece == piece[..i] + "=" + piece[i + 1..];
        Some(Pair(piece[..i], piece[i + 1..]))
  }

  /** `new URLSearchParams(init)` for a string: one leading '?' is ignored, then the pieces are read in order. */
  function Parse(init: string): seq<Pair> {
    var s := if init != [] && init[0] == '?' then init[1..] else init;
    FilterMap(Split(s, '&'), PairOf)
  }

  /** Every pair read has a name without '=' or '&' and a value without '&'. */
  lemma ParsedPairsAreSeparatorFree(init: string)
    ensures forall k :: 0 <= k < |Parse(init)| ==>
      '=' !in Parse(init)[k].name && '&' !in Parse(init)[k].name && '&' !in Parse(init)[k].value
  {
    var s := if init != [] && init[0] == '?' then init[1..] else init;
    var pieces := Split(s, '&');
    forall k | 0 <= k < |Parse(init)|
      ensures '=' !in Parse(init)[k].name && '&' !in Parse(init)[k].name && '&' !in Parse(init)[k].value
    {
      FilterMapOnlyImages(pieces, PairOf, k);
      var i :| 0 <= i < |pieces| && PairOf(pieces[i]) == Some(Parse(init)[k]);
      PieceFieldsFree(pieces[i], Parse(init)[k]);
    }
  }

  /** The fields of a piece without '&' hold no '&'. */
  lemma PieceFieldsFree(piece: string, p: Pair)
    requires '&' !in piece && PairOf(piece) == Some(p)
    ensures '&' !in p.name && '&' !in p.value
  {
    if '=' in piece {
      assert piece == p.name + "=" + p.value;
      forall j | 0 <= j < |p.value| ensures p.value[j] != '&' {
        assert p.value[j] == piece[|p.name| + 1 + j];
      }
    }
  }

  /** The piece a pair is written as. */
  function PieceOf(p: Pair): string {
    p.name + "=" + p.value
  }

  function Pieces(pairs: seq<Pair>): (pieces: seq<string>)
    ensures |pieces| == |pairs|
    ensures forall k :: 0 <= k < |pairs| ==> pieces[k] == PieceOf(pairs[k])
  {
    seq(|pairs|, k requires 0 <= k < |pairs| => PieceOf(pairs[k]))
  }

  /** `params.toString()`: the pieces in list order, joined by '&'. */
  function Serialize(pairs: seq<Pair>): string {
    Join(Pieces(pairs), '&')
  }

  /** The written form is empty exactly when there are no pairs: every piece holds at least its '='. */
  lemma SerializeEmptyIff(pairs: seq<Pair>)
    ensures Serialize(pairs) == "" <==> pairs == []
  {
    if pairs != [] {
      var pieces := Pieces(pairs);
      assert pieces[0] == pairs[0].name + "=" + pairs[0].value;
      assert pieces[0] != [];
      JoinStartsWithFirst(pieces, '&');
    }
  }

  /** A pair whose name and value hold no separator. */
  predicate Writable(p: Pair) {
    '&' !in p.name && '=' !in p.name && '&' !in p.value
  }

  /**
   * Reading a written list gives the list back, when no name or value holds a
   * separator and the first name does not start with '?' (a leading '?' of the
   * whole string is skipped when it is read).
   */
  lemma ParseSerialize(pairs: seq<Pair>)
    requires forall k :: 0 <= k < |pairs| ==> Writable(pairs[k])
    requires pairs != [] ==> pairs[0].name == [] || pairs[0].name[0] != '?'
    ensures Parse(Serialize(pairs)) == pairs
  {
    var pieces := Pieces(pairs);
    if pairs == [] {
      assert Split("", '&') == [""];
    } else {
      forall k | 0 <= k < |pieces| ensures '&' !in pieces[k] {
        assert pieces[k] == pairs[k].name + "=" + pairs[k].value;
      }
      SplitJoin(pieces, '&');
      var s := Serialize(pairs);
      JoinStartsWithFirst(pieces, '&');
      assert pieces[0] == pairs[0].name + "=" + pairs[0].value;
      assert s[0] == pieces[0][0];
      assert s[0] != '?';
      PiecesReadBack(pairs);
    }
  }

  /** A join of several pieces begins with the first piece. */
  lemma JoinStartsWithFirst(parts: seq<string>, c: char)
    requires |parts| >= 1 && parts[0] != []
    ensures Join(parts, c) != [] && Join(parts, c)[0] == parts[0][0]
  {
  }

  /** Each written piece reads back as its pair. */
  lemma {:induction false} PiecesReadBack(pairs: seq<Pair>)
    requires forall k :: 0 <= k < |pairs| ==> Writable(pairs[k])
    ensures FilterMap(Pieces(pairs), PairOf) == pairs
  {
    if pairs != [] {
      var p := pairs[0];
      IndexOfAfterFree(p.name, '=', p.value);
      var piece := PieceOf(p);
      assert piece == p.name + ['='] + p.value;
      assert piece[..|p.name|] == p.name && piece[|p.name| + 1..] == p.value;
      assert PairOf(piece) == Some(p);
      assert Pieces(pairs)[1..] == Pieces(pairs[1..]);
      PiecesReadBack(pairs[1..]);
    }
  }

  // ----- looking up and setting -----

  /** The position of the first pair named `name`, or -1. */
  function FirstNamed(pairs: seq<Pair>, name: string): (i: int)
    ensures -1 <= i < |pairs|
    ensures i >= 0 ==> pairs[i].name == name
    ensures forall k :: 0 <= k < |pairs| && (i < 0 || k < i) ==> pairs[k].name != name
  {
    if pairs == [] then -1
    else if pairs[0].name == name then 0
    else
      var j := FirstNamed(pairs[1..], name);
      if j < 0 then -1 else j + 1
  }

  /** The step that drops the pairs named `name`. */
  function NotNamed(name: string): Pair -> Option<Pair> {
    (p: Pair) => if p.name == name then None else Some(p)
  }

  /** The step that keeps the values of the pairs named `name`. */
  function ValueIfNamed(name: string): Pair -> Option<string> {
    (p: Pair) => if p.name == name then Some(p.value) else None
  }

  /** All pairs except those named `name`, in order. */
  function RemoveAll(pairs: seq<Pair>, name: string): seq<Pair> {
    FilterMap(pairs, NotNamed(name))
  }

  /** `params.getAll(name)`: the values of the pairs named `name`, in order. */
  function ValuesOf(pairs: seq<Pair>, name: string): seq<string> {
    FilterMap(pairs, ValueIfNamed(name))
  }

  /**
   * `params.set(name, value)`: the first pair named `name` takes the new
   * value in its place and the later ones are removed; with no such pair
   * the new one is appended.
   */
  function Set(pairs: seq<Pair>, name: string, value: string): seq<Pair> {
    var i := FirstNamed(pairs, name);
    if i < 0 then pairs + [Pair(name, value)]
    else pairs[..i] + [Pair(name, value)] + RemoveAll(pairs[i + 1..], name)
  }

  /**
   * `set` keeps the place of the name: the new pair sits where the first old
   * pair of that name was (or at the end), and the pairs of every other name
   * stay as they were, in order.
   */
  lemma SetKeepsPlace(pairs: seq<Pair>, name: string, value: string)
    ensures var i := FirstNamed(pairs, name);
      FirstNamed(Set(pairs, name, value), name) == if i < 0 then |pairs| else i
    ensures RemoveAll(Set(pairs, name, value), name) == RemoveAll(pairs, name)
  {
    var i := FirstNamed(pairs, name);
    var r := Set(pairs, name, value);
    var x := Pair(name, value);
    var j := FirstNamed(r, name);
    if i < 0 {
      assert r[|pairs|] == x;
      assert j == |pairs|;
      FilterMapSnoc(pairs, x, NotNamed(name));
    } else {
      var before, rest := pairs[..i], pairs[i + 1..];
      assert r == before + [x] + RemoveAll(rest, name);
      assert r[i] == x;
      assert j == i;
      assert pairs == before + [pairs[i]] + rest;
      FilterMapConcat(before + [x], RemoveAll(rest, name), NotNamed(name));
      FilterMapSnoc(before, x, NotNamed(name));
      FilterMapConcat(before + [pairs[i]], rest, NotNamed(name));
      FilterMapSnoc(before, pairs[i], NotNamed(name));
      RemoveAllTwice(rest, name);
    }
  }

  /** Removing a name twice removes nothing more. */
  lemma {:induction false} RemoveAllTwice(pairs: seq<Pair>, name: string)
    ensures RemoveAll(RemoveAll(pairs, name), name) == RemoveAll(pairs, name)
  {
    if pairs != [] {
      RemoveAllTwice(pairs[1..], name);
      var tail := RemoveAll(pairs[1..], name);
      if pairs[0].name == name {
        assert RemoveAll(pairs, name) == tail;
      } else {
        var once := [pairs[0]] + tail;
        assert RemoveAll(pairs, name) == once;
        assert once[0] == pairs[0] && once[1..] == tail;
        assert RemoveAll(once, name) == [pairs[0]] + RemoveAll(tail, name);
      }
    }
  }

  /** A list with no pair of a name has no value for it. */
  lemma {:induction false} ValuesOfAbsent(pairs: seq<Pair>, name: string)
    requires forall k :: 0 <= k < |pairs| ==> pairs[k].name != name
    ensures ValuesOf(pairs, name) == []
  {
    if pairs != [] {
      ValuesOfAbsent(pairs[1..], name);
    }
  }

  /** Removing a name leaves it no values and every other name its values. */
  lemma {:induction false} ValuesOfRemoveAll(pairs: seq<Pair>, name: string, n: string)
    ensures ValuesOf(RemoveAll(pairs, name), n) == if n == name then [] else ValuesOf(pairs, n)
  {
    if pairs != [] {
      var p := pairs[0];
      var tail := RemoveAll(pairs[1..], name);
      ValuesOfRemoveAll(pairs[1..], name, n);
      if p.name == name {
        assert RemoveAll(pairs, name) == tail;
      } else {
        assert RemoveAll(pairs, name) == [p] + tail;
        assert ([p] + tail)[1..] == tail;
      }
    }
  }

  /**
   * After `set(name, value)` the name has exactly the one value given, and
   * every other name keeps its values in their order.
   */
  lemma SetValues(pairs: seq<Pair>, name: string, value: string, n: string)
    ensures ValuesOf(Set(pairs, name, value), n) == if n == name then [value] else ValuesOf(pairs, n)
  {
    var i := FirstNamed(pairs, name);
    if i < 0 {
      AppendedValues(pairs, Pair(name, value), n);
    } else {
      assert pairs == pairs[..i] + [pairs[i]] + pairs[i + 1..];
      ReplacedValues(pairs[..i], pairs[i], pairs[i + 1..], value, n);
    }
  }

  /** Appending a pair of a name the list lacks: that name has just its value, the others keep theirs. */
  lemma AppendedValues(pairs: seq<Pair>, p: Pair, n: string)
    requires forall k :: 0 <= k < |pairs| ==> pairs[k].name != p.name
    ensures ValuesOf(pairs + [p], n) == if n == p.name then [p.value] else ValuesOf(pairs, n)
  {
    FilterMapSnoc(pairs, p, ValueIfNamed(n));
    if n == p.name {
      ValuesOfAbsent(pairs, p.name);
    }
  }

  /** Replacing the first pair of a name and removing its later ones. */
  lemma ReplacedValues(before: seq<Pair>, first: Pair, rest: seq<Pair>, value: string, n: string)
    requires forall k :: 0 <= k < |before| ==> before[k].name != first.name
    ensures ValuesOf(before + [Pair(first.name, value)] + RemoveAll(rest, first.name), n) ==
      if n == first.name then [value] else ValuesOf(before + [first] + rest, n)
  {
    var name := first.name;
    var head, tail := before + [Pair(name, value)], RemoveAll(rest, name);
    var f := ValueIfNamed(n);
    FilterMapConcat(head, tail, f);
    assert ValuesOf(head + tail, n) == ValuesOf(head, n) + ValuesOf(tail, n);
    AppendedValues(before, Pair(name, value), n);
    ValuesOfRemoveAll(rest, name, n);
    if n != name {
      KeptValues(before, first, rest, n);
    }
  }

  /** A pair of another name contributes nothing to the values of `n`. */
  lemma KeptValues(before: seq<Pair>, first: Pair, rest: seq<Pair>, n: string)
    requires first.name != n
    ensures ValuesOf(before + [first] + rest, n) == ValuesOf(before, n) + ValuesOf(rest, n)
  {
    var f := ValueIfNamed(n);
    FilterMapConcat(before + [first], rest, f);
    FilterMapSnoc(before, first, f);
  }
}
