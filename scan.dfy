/** The scan for the boundaries of the protected code snippet that both
    analysers perform, with their own start and end markers: remember the
    address of the latest start marker and of the latest end marker, and
    stop at the first end marker that comes after some start marker. */
module Scan {
  import opened Wrappers

  /** The position of the last element before `j` that satisfies `p`. */
  function LastBefore<T>(s: seq<T>, p: T -> bool, j: nat): (r: Option<nat>)
    requires j <= |s|
    ensures r.None? <==> forall i :: 0 <= i < j ==> !p(s[i])
    ensures r.Some? ==> r.value < j && p(s[r.value])
    ensures r.Some? ==> forall i :: r.value < i < j ==> !p(s[i])
    decreases j
  {
    if j == 0 then None
    else if p(s[j - 1]) then Some(j - 1)
    else LastBefore(s, p, j - 1)
  }

  /** Position `j` holds an end marker with a start marker before it. */
  predicate IsStop<T>(s: seq<T>, isStart: T -> bool, isEnd: T -> bool, j: nat)
    requires j < |s|
  {
    isEnd(s[j]) && LastBefore(s, isStart, j).Some?
  }

  /** The first stop at or after position `i`. */
  function FirstStopFrom<T>(s: seq<T>, isStart: T -> bool, isEnd: T -> bool, i: nat): (r: Option<nat>)
    requires i <= |s|
    ensures r.Some? ==> i <= r.value < |s| && IsStop(s, isStart, isEnd, r.value)
    ensures r.Some? ==> forall j :: i <= j < r.value ==> !IsStop(s, isStart, isEnd, j)
    ensures r.None? ==> forall j :: i <= j < |s| ==> !IsStop(s, isStart, isEnd, j)
    decreases |s| - i
  {
    if i == |s| then None
    else if IsStop(s, isStart, isEnd, i) then Some(i)
    else FirstStopFrom(s, isStart, isEnd, i + 1)
  }

  function FirstStop<T>(s: seq<T>, isStart: T -> bool, isEnd: T -> bool): Option<nat> {
    FirstStopFrom(s, isStart, isEnd, 0)
  }

  /** The address of the element at an optional position. */
  function AddressAt<T>(s: seq<T>, address: T -> int, k: Option<nat>): Option<int> {
    match k
    case None => None
    case Some(i) => if i < |s| then Some(address(s[i])) else None
  }

  /** The boundary scan. Where it stops at an end marker `j`, the result is
      that marker and the last start marker before it; where it runs to the
      end, the last start marker and the last end marker of the listing. */
  method SnippetBoundaries<T>(s: seq<T>, address: T -> int, isStart: T -> bool, isEnd: T -> bool)
    returns (start: Option<int>, end: Option<int>)
    requires forall i :: 0 <= i < |s| ==> !(isStart(s[i]) && isEnd(s[i]))
    ensures FirstStop(s, isStart, isEnd).Some? ==>
              var j := FirstStop(s, isStart, isEnd).value;
              end == Some(address(s[j])) && start == AddressAt(s, address, LastBefore(s, isStart, j))
    ensures FirstStop(s, isStart, isEnd).None? ==>
              start == AddressAt(s, address, LastBefore(s, isStart, |s|))
              && end == AddressAt(s, address, LastBefore(s, isEnd, |s|))
  {
    start, end := None, None;
    var i := 0;
    while i < |s|
      invariant 0 <= i <= |s|
      invariant forall j :: 0 <= j < i ==> !IsStop(s, isStart, isEnd, j)
      invariant start == AddressAt(s, address, LastBefore(s, isStart, i))
      invariant end == AddressAt(s, address, LastBefore(s, isEnd, i))
    {
      if isStart(s[i]) {
        start := Some(address(s[i]));
      } else if isEnd(s[i]) {
        end := Some(address(s[i]));
        if start.Some? {
          assert IsStop(s, isStart, isEnd, i);
          FirstStopIs(s, isStart, isEnd, i);
          return;
        }
      }
      i := i + 1;
    }
    FirstStopNone(s, isStart, isEnd);
  }

  /** The first stop is the stop with no stop before it. */
  lemma {:induction false} FirstStopIs<T>(s: seq<T>, isStart: T -> bool, isEnd: T -> bool, i: nat)
    requires i < |s| && IsStop(s, isStart, isEnd, i)
    requires forall j :: 0 <= j < i ==> !IsStop(s, isStart, isEnd, j)
    ensures FirstStop(s, isStart, isEnd) == Some(i)
  {
  }

  lemma {:induction false} FirstStopNone<T>(s: seq<T>, isStart: T -> bool, isEnd: T -> bool)
    requires forall j :: 0 <= j < |s| ==> !IsStop(s, isStart, isEnd, j)
    ensures FirstStop(s, isStart, isEnd) == None
  {
  }
}
