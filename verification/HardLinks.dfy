/** The second pass of Scan (src/archive/ustar.cpp:1778-1833): every hard link must lead to a
    regular file. */
module HardLinks {
  import opened Common
  import opened Entries

  /** The index built by the first pass names members by path. */
  predicate Indexed(members: seq<Member>, index: map<Bytes, nat>) {
    forall p :: p in index ==> index[p] < |members|
  }

  predicate IsLink(members: seq<Member>, i: nat) {
    i < |members| && members[i].entry.kind == HardLink
  }

  /** The hard link `i` names the member `j` as its target. */
  predicate Links(members: seq<Member>, index: map<Bytes, nat>, i: nat, j: nat) {
    IsLink(members, i) && members[i].entry.linkTarget in index && index[members[i].entry.linkTarget] == j
  }

  /** Following `steps` link targets from `i` ends at a regular file. */
  predicate Reaches(members: seq<Member>, index: map<Bytes, nat>, i: nat, steps: nat)
    decreases steps
  {
    && i < |members|
    && if steps == 0 then members[i].entry.kind == RegularFile
       else IsLink(members, i) && members[i].entry.linkTarget in index
            && Reaches(members, index, index[members[i].entry.linkTarget], steps - 1)
  }

  ghost predicate Resolves(members: seq<Member>, index: map<Bytes, nat>, i: nat) {
    exists steps: nat :: Reaches(members, index, i, steps)
  }

  /** What the pass decides. */
  ghost predicate AllLinksResolve(members: seq<Member>, index: map<Bytes, nat>) {
    forall i :: IsLink(members, i) ==> Resolves(members, index, i)
  }

  lemma ResolvesThroughTarget(members: seq<Member>, index: map<Bytes, nat>, i: nat, j: nat)
    requires Links(members, index, i, j)
    ensures Resolves(members, index, i) <==> Resolves(members, index, j)
  {
    if steps: nat :| Reaches(members, index, j, steps) {
      assert Reaches(members, index, i, steps + 1);
    }
    if steps: nat :| Reaches(members, index, i, steps) {
      assert Reaches(members, index, j, steps - 1);
    }
  }

  /** A set of hard links closed under their targets has no way out. */
  predicate Trap(members: seq<Member>, index: map<Bytes, nat>, s: set<nat>) {
    forall i :: i in s ==>
      IsLink(members, i) && members[i].entry.linkTarget in index && index[members[i].entry.linkTarget] in s
  }

  lemma {:induction false} NoEscape(members: seq<Member>, index: map<Bytes, nat>, s: set<nat>, i: nat, steps: nat)
    requires Trap(members, index, s) && i in s
    ensures !Reaches(members, index, i, steps)
    decreases steps
  {
    if steps > 0 { NoEscape(members, index, s, index[members[i].entry.linkTarget], steps - 1); }
  }

  lemma TrappedNeverResolves(members: seq<Member>, index: map<Bytes, nat>, s: set<nat>, i: nat)
    requires Trap(members, index, s) && i in s
    ensures !Resolves(members, index, i)
  {
    forall steps: nat ensures !Reaches(members, index, i, steps) { NoEscape(members, index, s, i, steps); }
  }

  // ----- the explicit stack -----

  const UNVISITED: byte := 0
  const VISITING: byte := 1
  const RESOLVED: byte := 2

  /** The stack is a link path, without repetition, of exactly the nodes marked visiting. */
  ghost predicate OnPath(members: seq<Member>, index: map<Bytes, nat>, marks: seq<byte>, stack: seq<nat>) {
    && |marks| == |members|
    && (forall k :: 0 <= k < |stack| ==> IsLink(members, stack[k]) && marks[stack[k]] == VISITING)
    && (forall k :: 0 < k < |stack| ==> Links(members, index, stack[k - 1], stack[k]))
    && (forall k, l :: 0 <= k < l < |stack| ==> stack[k] != stack[l])
    && (forall i :: 0 <= i < |marks| && marks[i] == VISITING ==> i in stack)
  }

  ghost predicate MarksSound(members: seq<Member>, index: map<Bytes, nat>, marks: seq<byte>) {
    && |marks| == |members|
    && (forall i :: 0 <= i < |marks| ==> marks[i] in {UNVISITED, VISITING, RESOLVED})
    && (forall i :: 0 <= i < |marks| && marks[i] == RESOLVED ==> Resolves(members, index, i))
  }

  function Unvisited(marks: seq<byte>): set<nat> {
    set i: nat | i < |marks| && marks[i] == UNVISITED
  }

  /** Meeting a visiting node again closes a cycle, so the top of the stack never resolves. */
  lemma CycleNeverResolves(members: seq<Member>, index: map<Bytes, nat>, marks: seq<byte>, stack: seq<nat>, target: nat)
    requires OnPath(members, index, marks, stack) && stack != []
    requires target < |members| && marks[target] == VISITING && Links(members, index, stack[|stack| - 1], target)
    ensures !Resolves(members, index, stack[|stack| - 1])
  {
    var from :| 0 <= from < |stack| && stack[from] == target;
    var s := set k | from <= k < |stack| :: stack[k];
    forall i | i in s
      ensures IsLink(members, i) && members[i].entry.linkTarget in index && index[members[i].entry.linkTarget] in s
    {
      var k :| from <= k < |stack| && stack[k] == i;
      NextOnPath(members, index, marks, stack, target, k);
    }
    TrappedNeverResolves(members, index, s, stack[|stack| - 1]);
  }

  lemma NextOnPath(members: seq<Member>, index: map<Bytes, nat>, marks: seq<byte>, stack: seq<nat>, target: nat, k: nat)
    requires OnPath(members, index, marks, stack) && k < |stack| && Links(members, index, stack[|stack| - 1], target)
    ensures Links(members, index, stack[k], if k + 1 < |stack| then stack[k + 1] else target)
  {
    if k + 1 < |stack| { assert Links(members, index, stack[k + 1 - 1], stack[k + 1]); }
  }

  lemma PopKeepsPath(members: seq<Member>, index: map<Bytes, nat>, marks: seq<byte>, stack: seq<nat>)
    requires OnPath(members, index, marks, stack) && stack != []
    requires MarksSound(members, index, marks) && Resolves(members, index, stack[|stack| - 1])
    ensures var after := marks[stack[|stack| - 1] := RESOLVED];
            && OnPath(members, index, after, stack[..|stack| - 1]) && MarksSound(members, index, after)
            && Unvisited(after) == Unvisited(marks)
  {
    var top := stack[|stack| - 1];
    var after := marks[top := RESOLVED];
    forall i | 0 <= i < |after| && after[i] == VISITING ensures i in stack[..|stack| - 1] {
      var k :| 0 <= k < |stack| && stack[k] == i;
      assert stack[..|stack| - 1][k] == i;
    }
  }

  lemma PushKeepsPath(members: seq<Member>, index: map<Bytes, nat>, marks: seq<byte>, stack: seq<nat>, next: nat)
    requires OnPath(members, index, marks, stack) && IsLink(members, next) && marks[next] == UNVISITED
    requires stack != [] ==> Links(members, index, stack[|stack| - 1], next)
    requires MarksSound(members, index, marks)
    ensures MarksSound(members, index, marks[next := VISITING])
    ensures OnPath(members, index, marks[next := VISITING], stack + [next])
    ensures Unvisited(marks[next := VISITING]) == Unvisited(marks) - {next} && next in Unvisited(marks)
  {
    var after := marks[next := VISITING];
    forall i | 0 <= i < |after| && after[i] == VISITING ensures i in stack + [next] {
      if i != next { assert i in stack; } else { assert (stack + [next])[|stack|] == next; }
    }
  }

  predicate LinksDone(members: seq<Member>, marks: seq<byte>, i: nat) {
    i <= |members| == |marks| && forall j: nat :: j < i && IsLink(members, j) ==> marks[j] == RESOLVED
  }

  lemma MarkKeepsDone(members: seq<Member>, marks: seq<byte>, i: nat, at: nat, mark: byte)
    requires LinksDone(members, marks, i) && at < |marks| && (mark == RESOLVED || marks[at] != RESOLVED)
    ensures LinksDone(members, marks[at := mark], i)
  {}

  method ResolveHardLinks(members: seq<Member>, index: map<Bytes, nat>) returns (ok: bool)
    requires Indexed(members, index)
    ensures ok <==> AllLinksResolve(members, index)
  {
    var state := new byte[|members|](_ => UNVISITED);
    ghost var marks := state[..];
    var stack: seq<nat> := [];
    for i := 0 to |members|
      invariant marks == state[..] && MarksSound(members, index, marks) && OnPath(members, index, marks, [])
      invariant LinksDone(members, marks, i)
    {
      if members[i].entry.kind != HardLink || state[i] == RESOLVED {
        continue;
      }
      PushKeepsPath(members, index, marks, [], i);
      MarkKeepsDone(members, marks, i, i, VISITING);
      state[i], marks := VISITING, marks[i := VISITING];
      stack := [i];
      while stack != []
        invariant marks == state[..] && MarksSound(members, index, marks) && OnPath(members, index, marks, stack)
        invariant if stack == [] then marks[i] == RESOLVED else stack[0] == i
        invariant LinksDone(members, marks, i)
        decreases Unvisited(marks), |stack|
      {
        var current := stack[|stack| - 1];
        var link := members[current].entry.linkTarget;
        if link !in index {
          DeadEnd(members, index, current);
          return false;
        }
        var target := index[link];
        if target == current {
          CycleNeverResolves(members, index, marks, stack, target);
          return false;
        }
        if members[target].entry.kind == HardLink {
          if state[target] == VISITING {
            CycleNeverResolves(members, index, marks, stack, target);
            return false;
          }
          if state[target] == UNVISITED {
            PushKeepsPath(members, index, marks, stack, target);
            MarkKeepsDone(members, marks, i, target, VISITING);
            state[target], marks := VISITING, marks[target := VISITING];
            stack := stack + [target];
            continue;
          }
        } else if members[target].entry.kind != RegularFile {
          DeadEnd(members, index, current);
          return false;
        }
        TargetDecided(members, index, marks, current, target);
        PopKeepsPath(members, index, marks, stack);
        MarkKeepsDone(members, marks, i, current, RESOLVED);
        state[current], marks := RESOLVED, marks[current := RESOLVED];
        stack := stack[..|stack| - 1];
      }
    }
    return true;
  }

  lemma TargetDecided(members: seq<Member>, index: map<Bytes, nat>, marks: seq<byte>, i: nat, target: nat)
    requires MarksSound(members, index, marks) && Links(members, index, i, target) && target < |members|
    requires members[target].entry.kind == RegularFile || marks[target] == RESOLVED
    ensures Resolves(members, index, i)
  {
    if members[target].entry.kind == RegularFile { assert Reaches(members, index, target, 0); }
    ResolvesThroughTarget(members, index, i, target);
  }

  /** A link whose target is missing, or is neither a link nor a regular file, never resolves. */
  lemma DeadEnd(members: seq<Member>, index: map<Bytes, nat>, i: nat)
    requires IsLink(members, i) && Indexed(members, index)
    requires members[i].entry.linkTarget in index
             ==> members[index[members[i].entry.linkTarget]].entry.kind !in {HardLink, RegularFile}
    ensures !Resolves(members, index, i)
  {
    if steps: nat :| Reaches(members, index, i, steps) {
      assert !Reaches(members, index, index[members[i].entry.linkTarget], steps - 1);
    }
  }
}
