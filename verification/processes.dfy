/** `IsGameRunning`: whether any running process belongs to one of the two
    games, judged by a case-sensitive substring match on its name. */
module Processes {

  import opened Common

  /** Name fragments of the game executables. */
  const GameExecutables: seq<string> := ["amtrucks", "eurotrucks2"]

  /** `needle` occurs in `hay` starting at position `i`. */
  predicate OccursAt(needle: string, hay: string, i: int) {
    0 <= i && i + |needle| <= |hay| && hay[i..i + |needle|] == needle
  }

  /** Python's `needle in hay` on strings, stated by position. */
  ghost predicate Contains(hay: string, needle: string) {
    exists i :: OccursAt(needle, hay, i)
  }

  /** Substring test by trying every start position in turn. */
  function IsSubstring(needle: string, hay: string): (r: bool)
    ensures r <==> Contains(hay, needle)
    decreases |hay|
  {
    if needle <= hay then
      assert OccursAt(needle, hay, 0);
      true
    else if |hay| == 0 then
      false
    else
      var r := IsSubstring(needle, hay[1..]);
      assert forall i :: OccursAt(needle, hay[1..], i) ==> OccursAt(needle, hay, i + 1) by {
        forall i | OccursAt(needle, hay[1..], i)
          ensures OccursAt(needle, hay, i + 1)
        {
          assert hay[1..][i..i + |needle|] == hay[i + 1..i + 1 + |needle|];
        }
      }
      assert forall i :: OccursAt(needle, hay, i) && i > 0 ==> OccursAt(needle, hay[1..], i - 1) by {
        forall i | OccursAt(needle, hay, i) && i > 0
          ensures OccursAt(needle, hay[1..], i - 1)
        {
          assert hay[1..][i - 1..i - 1 + |needle|] == hay[i..i + |needle|];
        }
      }
      r
  }

  /** A process whose name could be read and contains a game fragment. A
      process that exited mid-scan (`None`, psutil's `NoSuchProcess`) never
      matches. */
  ghost predicate IsGameProcess(p: Option<string>) {
    p.Some? && exists g :: g in GameExecutables && Contains(p.value, g)
  }

  ghost predicate GameRunning(processes: seq<Option<string>>) {
    exists k :: 0 <= k < |processes| && IsGameProcess(processes[k])
  }

  /** Lines 21-31: scan processes, and for each the two name fragments,
      stopping at the first match. */
  method IsGameRunning(processes: seq<Option<string>>) returns (running: bool)
    ensures running <==> GameRunning(processes)
  {
    var i := 0;
    while i < |processes|
      invariant 0 <= i <= |processes|
      invariant forall k :: 0 <= k < i ==> !IsGameProcess(processes[k])
    {
      var j := 0;
      while j < |GameExecutables|
        invariant 0 <= j <= |GameExecutables|
        invariant processes[i].Some? ==>
          forall m :: 0 <= m < j ==> !Contains(processes[i].value, GameExecutables[m])
      {
        match processes[i] {
          case Some(name) =>
            if IsSubstring(GameExecutables[j], name) {
              return true;
            }
          case None =>
        }
        j := j + 1;
      }
      i := i + 1;
    }
    return false;
  }
}
