/** The slideshow rotator: every group of more than one slide gets its own interval that
    moves the "active" mark from the current slide to the next one, wrapping around. A
    group's `active` class marks are an array of booleans, one per slide. */
module Slides {
  import opened Filtering

  /** Exactly the slide at `k` carries the mark. */
  predicate OnlyActive(marks: seq<bool>, k: int) {
    0 <= k < |marks| && forall j :: 0 <= j < |marks| ==> (marks[j] <==> j == k)
  }

  /** The marks of a group of `n` slides in which only slide `k` is active. */
  function Marked(n: nat, k: nat): seq<bool> {
    seq(n, j => j == k)
  }

  /** `index = (index + 1) % slides.length` */
  function Next(index: nat, n: nat): (r: nat)
    requires index < n
    ensures r < n
    ensures r == if index + 1 < n then index + 1 else 0
  {
    (index + 1) % n
  }

  /** `current.classList.remove('active'); next.classList.add('active')` */
  function Advance(marks: seq<bool>, index: nat): (r: seq<bool>)
    requires index < |marks|
  {
    marks[index := false][Next(index, |marks|) := true]
  }

  /** The index after `k` ticks. */
  function NextN(index: nat, n: nat, k: nat): (r: nat)
    requires index < n
    ensures r < n
    decreases k
  {
    if k == 0 then index else Next(NextN(index, n, k - 1), n)
  }

  /** A mark on exactly one slide is handed on to exactly the next slide, and the marks of
      all other slides are left alone. */
  lemma AdvanceMovesMark(marks: seq<bool>, index: nat)
    requires |marks| > 1 && OnlyActive(marks, index)
    ensures OnlyActive(Advance(marks, index), Next(index, |marks|))
    ensures Advance(marks, index) == Marked(|marks|, Next(index, |marks|))
    ensures forall j :: 0 <= j < |marks| && j != index && j != Next(index, |marks|) ==>
              Advance(marks, index)[j] == marks[j]
  {
    OnlyActiveIsMarked(Advance(marks, index), Next(index, |marks|));
  }

  /** A single mark is the same thing as the marks `Marked` builds. */
  lemma OnlyActiveIsMarked(marks: seq<bool>, k: nat)
    requires k < |marks|
    ensures OnlyActive(marks, k) <==> marks == Marked(|marks|, k)
  {
    if OnlyActive(marks, k) {
      assert forall j :: 0 <= j < |marks| ==> marks[j] == Marked(|marks|, k)[j];
    }
  }

  /** Up to a full round, `k` ticks move the index `k` places on, wrapping once past the
      last slide. */
  lemma {:induction false} NextNShift(index: nat, n: nat, k: nat)
    requires index < n && k <= n
    ensures NextN(index, n, k) == if index + k < n then index + k else index + k - n
    decreases k
  {
    if k > 0 {
      NextNShift(index, n, k - 1);
    }
  }

  /** After as many ticks as there are slides the index is back where it started. */
  lemma Period(index: nat, n: nat)
    requires index < n
    ensures NextN(index, n, n) == index
  {
    NextNShift(index, n, n);
  }

  /** One group's interval: the captured slide list and the index the closure updates. */
  class Slideshow {
    const marks: array<bool>
    var index: nat

    ghost predicate Valid()
      reads this
    {
      marks.Length > 1 && index < marks.Length
    }

    /** The state right after `let index = 0` for a group of more than one slide. */
    constructor (slides: array<bool>)
      requires slides.Length > 1
      ensures Valid() && marks == slides && index == 0
    {
      marks := slides;
      index := 0;
    }

    /** One firing of the five-second interval. */
    method Tick()
      requires Valid()
      modifies this, marks
      ensures Valid()
      ensures index == Next(old(index), marks.Length)
      ensures marks[..] == Advance(old(marks[..]), old(index))
      ensures OnlyActive(old(marks[..]), old(index)) ==> OnlyActive(marks[..], index)
      ensures OnlyActive(old(marks[..]), old(index)) ==> marks[..] == Marked(marks.Length, index)
    {
      var current := index;
      index := (index + 1) % marks.Length;
      marks[current] := false;
      marks[index] := true;
      if OnlyActive(old(marks[..]), current) {
        AdvanceMovesMark(old(marks[..]), current);
      }
    }
  }

  /** The groups that get a timer: those with more than one slide, in document order. */
  function Rotating(groups: seq<array<bool>>): (r: seq<array<bool>>)
    ensures forall i :: 0 <= i < |r| ==> r[i].Length > 1
  {
    Filter(groups, (g: array<bool>) => g.Length > 1)
  }

  /** `startSlides`: one independent rotator per group, skipping groups of at most one slide. */
  method StartSlides(groups: seq<array<bool>>) returns (shows: seq<Slideshow>)
    ensures |shows| == |Rotating(groups)|
    ensures forall i :: 0 <= i < |shows| ==>
              fresh(shows[i]) && shows[i].Valid() && shows[i].marks == Rotating(groups)[i] && shows[i].index == 0
  {
    shows := [];
    for k := 0 to |groups|
      invariant |shows| == |Filter(groups[..k], (g: array<bool>) => g.Length > 1)|
      invariant forall i :: 0 <= i < |shows| ==>
                  fresh(shows[i]) && shows[i].Valid() && shows[i].index == 0 &&
                  shows[i].marks == Filter(groups[..k], (g: array<bool>) => g.Length > 1)[i]
    {
      FilterAppend(groups[..k], [groups[k]], (g: array<bool>) => g.Length > 1);
      assert groups[..k + 1] == groups[..k] + [groups[k]];
      if groups[k].Length > 1 {
        var show := new Slideshow(groups[k]);
        shows := shows + [show];
      }
    }
    assert groups[..|groups|] == groups;
  }
}
