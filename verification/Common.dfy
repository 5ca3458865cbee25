/** Values that may be missing, outcomes that may fail, and splitting. */
module Common {

  datatype Option<+T> = None | Some(value: T)

  datatype Result<+T, +E> = Ok(value: T) | Err(error: E)

  function IndexOf<T>(s: seq<T>, isSeparator: T -> bool): (i: nat)
    ensures i <= |s|
    ensures forall j :: 0 <= j < i ==> !isSeparator(s[j])
    ensures i < |s| ==> isSeparator(s[i])
  {
    if s == [] || isSeparator(s[0]) then 0 else 1 + IndexOf(s[1..], isSeparator)
  }

  /** The pieces between separators; n separators give n + 1 pieces. */
  function SplitOn<T>(s: seq<T>, isSeparator: T -> bool): (pieces: seq<seq<T>>)
    ensures |pieces| >= 1
    decreases |s|
  {
    var i := IndexOf(s, isSeparator);
    if i == |s| then [s] else [s[..i]] + SplitOn(s[i + 1..], isSeparator)
  }

  /** The parts with one separator between neighbours. */
  function Join<T>(parts: seq<seq<T>>, separator: T): seq<T> {
    if parts == [] then []
    else if |parts| == 1 then parts[0]
    else Join(parts[..|parts| - 1], separator) + [separator] + parts[|parts| - 1]
  }

  lemma {:induction false} JoinCons<T>(part: seq<T>, parts: seq<seq<T>>, separator: T)
    requires parts != []
    ensures Join([part] + parts, separator) == part + [separator] + Join(parts, separator)
    decreases |parts|
  {
    var last := |parts| - 1;
    assert ([part] + parts)[..|parts|] == [part] + parts[..last];
    if last == 0 {
      assert [part] + parts[..last] == [part];
    } else {
      JoinCons(part, parts[..last], separator);
    }
  }

  ghost predicate Recognises<T(!new)>(isSeparator: T -> bool, separator: T) {
    forall x :: isSeparator(x) <==> x == separator
  }

  /** Splitting undoes joining, and no piece contains the separator. */
  lemma {:induction false} SplitRoundTrip<T(!new)>(s: seq<T>, isSeparator: T -> bool, separator: T)
    requires Recognises(isSeparator, separator)
    ensures Join(SplitOn(s, isSeparator), separator) == s
    ensures forall piece :: piece in SplitOn(s, isSeparator) ==> separator !in piece
    decreases |s|
  {
    var i := IndexOf(s, isSeparator);
    if i < |s| {
      SplitRoundTrip(s[i + 1..], isSeparator, separator);
      JoinCons(s[..i], SplitOn(s[i + 1..], isSeparator), separator);
      assert s == s[..i] + [separator] + s[i + 1..];
    }
  }

  lemma {:induction false} IndexOfFirst<T(!new)>(piece: seq<T>, rest: seq<T>, isSeparator: T -> bool, separator: T)
    requires Recognises(isSeparator, separator) && separator !in piece
    ensures IndexOf(piece + [separator] + rest, isSeparator) == |piece|
    ensures IndexOf(piece, isSeparator) == |piece|
    decreases |piece|
  {
    if piece != [] {
      assert piece[0] in piece;
      assert (piece + [separator] + rest)[1..] == piece[1..] + [separator] + rest;
      IndexOfFirst(piece[1..], rest, isSeparator, separator);
    }
  }

  /** ... and that is the only way to cut `s` into pieces free of the separator. */
  lemma {:induction false} SplitUnique<T(!new)>(pieces: seq<seq<T>>, isSeparator: T -> bool, separator: T)
    requires Recognises(isSeparator, separator)
    requires pieces != [] && forall piece :: piece in pieces ==> separator !in piece
    ensures SplitOn(Join(pieces, separator), isSeparator) == pieces
    decreases |pieces|
  {
    var first, rest := pieces[0], pieces[1..];
    assert pieces == [first] + rest;
    assert first in pieces;
    IndexOfFirst(first, Join(rest, separator), isSeparator, separator);
    if rest != [] {
      JoinCons(first, rest, separator);
      var s := Join(pieces, separator);
      assert s[..|first|] == first && s[|first| + 1..] == Join(rest, separator);
      SplitUnique(rest, isSeparator, separator);
    }
  }
}
