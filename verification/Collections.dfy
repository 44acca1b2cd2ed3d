/** Facts about sets and sequences of sequences that several models need. */
module Collections {

  lemma {:induction false} SubsetSize<T>(a: set<T>, b: set<T>)
    requires a <= b
    ensures |a| <= |b|
    decreases |a|
  {
    if a != {} {
      var x :| x in a;
      SubsetSize(a - {x}, b - {x});
    }
  }

  ghost function Elements<T(!new)>(list: seq<T>): (s: set<T>)
    ensures forall x :: x in s <==> x in list
  {
    set x | x in list
  }

  lemma {:induction false} ElementsSize<T(!new)>(list: seq<T>)
    ensures |Elements(list)| <= |list|
  {
    if |list| > 0 {
      ElementsSize(list[..|list| - 1]);
      assert Elements(list) == Elements(list[..|list| - 1]) + {list[|list| - 1]};
    }
  }

  lemma {:induction false} DistinctSize<T(!new)>(list: seq<T>)
    requires forall i, j :: 0 <= i < j < |list| ==> list[i] != list[j]
    ensures |Elements(list)| == |list|
  {
    if |list| > 0 {
      var front, last := list[..|list| - 1], list[|list| - 1];
      DistinctSize(front);
      assert Elements(list) == Elements(front) + {last};
    }
  }

  /** The pieces one after another. */
  function Flatten<T>(pieces: seq<seq<T>>): seq<T> {
    if |pieces| == 0 then [] else pieces[0] + Flatten(pieces[1..])
  }

  lemma FlattenNone<T>(pieces: seq<seq<T>>)
    ensures Flatten(pieces[..0]) == []
  {
  }

  lemma {:induction false} FlattenAppend<T>(a: seq<seq<T>>, b: seq<seq<T>>)
    ensures Flatten(a + b) == Flatten(a) + Flatten(b)
  {
    if |a| == 0 {
      assert a + b == b;
    } else {
      FlattenAppend(a[1..], b);
      assert (a + b)[1..] == a[1..] + b && (a + b)[0] == a[0];
      hide Flatten;
    }
  }

  lemma FlattenOne<T>(piece: seq<T>)
    ensures Flatten([piece]) == piece
  {
    assert [piece][1..] == [];
  }

  lemma FlattenNext<T>(pieces: seq<seq<T>>, k: nat)
    requires k < |pieces|
    ensures Flatten(pieces[..k + 1]) == Flatten(pieces[..k]) + pieces[k]
  {
    FlattenAppend(pieces[..k], [pieces[k]]);
    FlattenOne(pieces[k]);
    assert pieces[..k + 1] == pieces[..k] + [pieces[k]];
  }

  lemma FlattenPrefix<T>(pieces: seq<seq<T>>, k: nat)
    requires k <= |pieces|
    ensures |Flatten(pieces[..k])| <= |Flatten(pieces)|
  {
    FlattenAppend(pieces[..k], pieces[k..]);
    assert pieces == pieces[..k] + pieces[k..];
  }
}
