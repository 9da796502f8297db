/**
 * Node names with namespaces (`ns:control`), the names of the animation
 * layers the bake creates, and the mirror-name lookup that finds the
 * controller on the other side of a rig (spring_tool/spring_tool.py).
 */
module Naming {
  import opened Wrappers

  // ---------------------------------------------------------------------
  // Namespaces
  // ---------------------------------------------------------------------

  /** `s` holds no namespace separator. */
  predicate NoColon(s: string) {
    forall i :: 0 <= i < |s| ==> s[i] != ':'
  }

  /** The index of the last ':' in `s`, if there is one. */
  function LastColon(s: string): (r: Option<nat>)
    ensures r.None? <==> NoColon(s)
    ensures r.Some? ==> r.value < |s| && s[r.value] == ':' && NoColon(s[r.value + 1..])
  {
    if s == [] then None
    else if s[|s| - 1] == ':' then Some(|s| - 1)
    else
      var r := LastColon(s[..|s| - 1]);
      assert r.Some? ==> s[r.value + 1..] == s[..|s| - 1][r.value + 1..] + [s[|s| - 1]];
      r
  }

  /** A colon at `k` with no colon after it is the last colon. */
  lemma LastColonAt(s: string, k: nat)
    requires k < |s| && s[k] == ':' && NoColon(s[k + 1..])
    ensures LastColon(s) == Some(k)
  {
    assert !NoColon(s) by { assert s[k] == ':'; }
  }

  /** The two sides of `name.rpartition(':')`; the separator itself is dropped. */
  datatype Parts = Parts(namespace: string, control: string)

  /**
   * `name.rpartition(':')`: the text before the last ':' and the text after
   * it, or the empty namespace and the whole name when there is no ':'.
   */
  function RPartition(name: string): (p: Parts)
    ensures NoColon(p.control)
    ensures LastColon(name).None? ==> p == Parts("", name)
    ensures LastColon(name).Some? ==> name == p.namespace + ":" + p.control
  {
    match LastColon(name)
    case None => Parts("", name)
    case Some(k) =>
      assert name == name[..k] + ":" + name[k + 1..];
      Parts(name[..k], name[k + 1..])
  }

  /** Splitting a joined name gives back its namespace and control name. */
  lemma RPartitionOfJoin(namespace: string, control: string)
    requires NoColon(control)
    ensures RPartition(namespace + ":" + control) == Parts(namespace, control)
  {
    var s := namespace + ":" + control;
    assert s[|namespace| + 1..] == control;
    LastColonAt(s, |namespace|);
    assert s[..|namespace|] == namespace;
  }

  /** `s.split(':')`: the pieces between separators, in order. */
  function Split(s: string): (pieces: seq<string>)
    ensures |pieces| >= 1
    ensures forall i :: 0 <= i < |pieces| ==> NoColon(pieces[i])
  {
    if s == [] then [""]
    else
      var init := Split(s[..|s| - 1]);
      var c := s[|s| - 1];
      if c == ':' then init + [""]
      else init[..|init| - 1] + [init[|init| - 1] + [c]]
  }

  /**
   * get_node_shortname: `node.split(':')[-1]`, the node name without any
   * namespace.
   */
  function Shortname(node: string): (r: string)
    ensures NoColon(r)
  {
    var pieces := Split(node);
    pieces[|pieces| - 1]
  }

  /** The short name of a non-empty name, from the short name of all but its last character. */
  lemma ShortnameStep(node: string)
    requires node != []
    ensures node[|node| - 1] == ':' ==> Shortname(node) == ""
    ensures node[|node| - 1] != ':' ==> Shortname(node) == Shortname(node[..|node| - 1]) + [node[|node| - 1]]
  {
  }

  /** The control part of a non-empty name, from that of all but its last character. */
  lemma ControlStep(node: string)
    requires node != []
    ensures node[|node| - 1] == ':' ==> RPartition(node).control == ""
    ensures node[|node| - 1] != ':' ==>
              RPartition(node).control == RPartition(node[..|node| - 1]).control + [node[|node| - 1]]
  {
    var init := node[..|node| - 1];
    var c := node[|node| - 1];
    if c != ':' {
      assert LastColon(node) == LastColon(init);
      match LastColon(init)
      case None =>
        assert node == init + [c];
      case Some(k) =>
        assert node[k + 1..] == init[k + 1..] + [c];
    }
  }

  /** The last piece of split(':') is the control part of rpartition(':'). */
  lemma {:induction false} ShortnameIsControl(node: string)
    ensures Shortname(node) == RPartition(node).control
    decreases |node|
  {
    if node != [] {
      ShortnameIsControl(node[..|node| - 1]);
      ShortnameStep(node);
      ControlStep(node);
    }
  }

  /** The short name of a name without ':' is the name itself. */
  lemma ShortnameWithoutNamespace(node: string)
    requires NoColon(node)
    ensures Shortname(node) == node
  {
    ShortnameIsControl(node);
  }

  /** A namespace prefix does not change the short name. */
  lemma ShortnameOfJoin(namespace: string, control: string)
    requires NoColon(control)
    ensures Shortname(namespace + ":" + control) == control
  {
    ShortnameIsControl(namespace + ":" + control);
    RPartitionOfJoin(namespace, control);
  }

  // ---------------------------------------------------------------------
  // Animation layer names
  // ---------------------------------------------------------------------

  const LayerPrefix: string := "SPTL_layer"

  /** The layer a controller is baked on: `SPTL_layer_<shortname>`. */
  function LayerName(ctl: string): (r: string)
  {
    LayerPrefix + "_" + Shortname(ctl)
  }

  /**
   * A layer name is the prefix, one '_', and after it exactly the
   * controller's short name, which holds no ':'.
   */
  lemma LayerNameShape(ctl: string)
    ensures var r := LayerName(ctl);
            && |r| > |LayerPrefix| && r[..|LayerPrefix|] == LayerPrefix && r[|LayerPrefix|] == '_'
            && r[|LayerPrefix| + 1..] == Shortname(ctl) && NoColon(r[|LayerPrefix| + 1..])
  {
    var r := LayerName(ctl);
    assert r[|LayerPrefix| + 1..] == Shortname(ctl);
  }

  /** The layer all baked layers of a chain are merged into. */
  function MergedLayerName(firstCtl: string): (r: string)
    ensures r == LayerName(firstCtl) + "_merged"
  {
    LayerPrefix + "_" + Shortname(firstCtl) + "_merged"
  }

  /**
   * Two controllers get the same layer exactly when their short names agree,
   * so controllers of one name in two namespaces share a layer.
   */
  lemma LayerNameSharedAcrossNamespaces(a: string, b: string)
    ensures LayerName(a) == LayerName(b) <==> Shortname(a) == Shortname(b)
  {
    var p := LayerPrefix + "_";
    if LayerName(a) == LayerName(b) {
      assert Shortname(a) == LayerName(a)[|p|..];
      assert Shortname(b) == LayerName(b)[|p|..];
    }
  }

  /** The layer name of `ns:ctl` is that of `ctl`: namespaces are stripped. */
  lemma LayerNameStripsNamespace(namespace: string, control: string)
    requires NoColon(control)
    ensures LayerName(namespace + ":" + control) == LayerPrefix + "_" + control
  {
    ShortnameOfJoin(namespace, control);
  }

  // ---------------------------------------------------------------------
  // Substrings: `p in s` and `s.replace(p, q, 1)`
  // ---------------------------------------------------------------------

  /** `p` occurs in `s` at index `j`. */
  predicate OccursAt(s: string, p: string, j: nat) {
    j + |p| <= |s| && s[j..j + |p|] == p
  }

  /** The first index at or after `i` at which `p` occurs in `s`. */
  function FindFrom(s: string, p: string, i: nat): (r: Option<nat>)
    ensures r.Some? ==> i <= r.value && OccursAt(s, p, r.value)
    ensures r.Some? ==> forall j: nat :: i <= j < r.value ==> !OccursAt(s, p, j)
    ensures r.None? ==> forall j: nat :: i <= j ==> !OccursAt(s, p, j)
    decreases |s| - i
  {
    if i + |p| > |s| then None
    else if s[i..i + |p|] == p then Some(i)
    else FindFrom(s, p, i + 1)
  }

  /** `p in s`: `p` occurs somewhere in `s`. */
  predicate Contains(s: string, p: string) {
    FindFrom(s, p, 0).Some?
  }

  /** `p in s` holds exactly when `p` occurs at some index of `s`. */
  lemma ContainsIffOccurs(s: string, p: string)
    ensures Contains(s, p) <==> exists j: nat :: OccursAt(s, p, j)
  {
    if !Contains(s, p) {
      assert forall j: nat :: 0 <= j ==> !OccursAt(s, p, j);
    }
  }

  /** `s.replace(p, q, 1)`: the first occurrence of `p` replaced by `q`. */
  function ReplaceFirst(s: string, p: string, q: string): (r: string)
  {
    match FindFrom(s, p, 0)
    case None => s
    case Some(k) => s[..k] + q + s[k + |p|..]
  }

  /**
   * Without an occurrence nothing changes; otherwise exactly the earliest
   * occurrence of `p` is cut out and `q` put in its place.
   */
  lemma ReplaceFirstIsFirstOccurrence(s: string, p: string, q: string)
    ensures !Contains(s, p) ==> ReplaceFirst(s, p, q) == s
    ensures Contains(s, p) ==>
              exists k: nat :: && OccursAt(s, p, k)
                               && (forall j: nat :: j < k ==> !OccursAt(s, p, j))
                               && ReplaceFirst(s, p, q) == s[..k] + q + s[k + |p|..]
  {
    var f := FindFrom(s, p, 0);
    if f.Some? {
      var k := f.value;
      assert forall j: nat :: j < k ==> !OccursAt(s, p, j);
      assert OccursAt(s, p, k) && ReplaceFirst(s, p, q) == s[..k] + q + s[k + |p|..];
    }
  }

  /** Replacing by colon-free text keeps a colon-free name colon-free. */
  lemma ReplaceFirstNoColon(s: string, p: string, q: string)
    requires NoColon(s) && NoColon(q)
    ensures NoColon(ReplaceFirst(s, p, q))
  {
    match FindFrom(s, p, 0)
    case None =>
    case Some(k) =>
      var r := s[..k] + q + s[k + |p|..];
      forall i | 0 <= i < |r| ensures r[i] != ':' {
        if i < k {
          assert r[i] == s[i];
        } else if i < k + |q| {
          assert r[i] == q[i - k];
        } else {
          assert r[i] == s[i - |q| + |p|];
        }
      }
  }

  /** A replacement that happens changes the length by `|q| - |p|`. */
  lemma ReplaceFirstLength(s: string, p: string, q: string)
    requires Contains(s, p)
    ensures |ReplaceFirst(s, p, q)| == |s| - |p| + |q|
  {
  }

  // ---------------------------------------------------------------------
  // Mirror names
  // ---------------------------------------------------------------------

  /** MIRROR: (pattern, opposite pattern), tried in this order. */
  const Mirror: seq<(string, string)> := [
    ("R_", "L_"), ("L_", "R_"),
    ("_R", "_L"), ("_L", "_R"),
    ("_R_", "_L_"), ("_L_", "_R_"),
    ("r_", "l_"), ("l_", "r_"),
    ("_r_", "_l_"), ("_l_", "_r_"),
    ("_rt_", "_lf_"), ("_lf_", "_rt_"),
    ("_rg_", "_lf_"), ("_lf_", "_rg_"),
    ("_lf", "_rg"), ("_rg", "_lf"),
    ("RF_", "LF_"), ("LF_", "RF_"),
    ("left_", "right_"), ("right_", "left_"),
    ("_left", "_right"), ("_right", "_left"),
    ("_left_", "_right_"), ("_right_", "_left_")
  ]

  /** No opposite pattern holds a namespace separator, and none is empty. */
  lemma MirrorOppositesAreNames(i: nat)
    requires i < |Mirror|
    ensures NoColon(Mirror[i].1) && |Mirror[i].1| > 0
  {
  }

  /**
   * The name pair `i` of Mirror proposes for `name`: the namespace kept, and
   * the first occurrence of the pattern in the control name replaced by
   * its opposite.
   */
  function Candidate(name: string, i: nat): string
    requires i < |Mirror|
  {
    var parts := RPartition(name);
    var control := ReplaceFirst(parts.control, Mirror[i].0, Mirror[i].1);
    if parts.namespace != "" then parts.namespace + ":" + control else control
  }

  /** Pair `i` applies to `name` and the name it proposes exists in the scene. */
  predicate Hit(name: string, objExists: string -> bool, i: nat)
    requires i < |Mirror|
  {
    Contains(RPartition(name).control, Mirror[i].0) && objExists(Candidate(name, i))
  }

  /** The first hit among the pairs from `i` on. */
  function OppositeFrom(name: string, objExists: string -> bool, i: nat): Option<string>
    decreases |Mirror| - i
  {
    if i >= |Mirror| then None
    else if Hit(name, objExists, i) then Some(Candidate(name, i))
    else OppositeFrom(name, objExists, i + 1)
  }

  /** The opposite controller of `name`, as find_opposite_name finds it. */
  function OppositeName(name: string, objExists: string -> bool): Option<string> {
    OppositeFrom(name, objExists, 0)
  }

  /** The first index from `i` below `n` at which `hit` holds, answered by `cand`. */
  function FirstHit(n: nat, hit: nat -> bool, cand: nat -> string, i: nat): Option<string>
    decreases n - i
  {
    if i >= n then None
    else if hit(i) then Some(cand(i))
    else FirstHit(n, hit, cand, i + 1)
  }

  /** A scan finds nothing exactly when no index from `i` on hits. */
  lemma {:induction false} FirstHitNone(n: nat, hit: nat -> bool, cand: nat -> string, i: nat)
    ensures FirstHit(n, hit, cand, i).None? <==> forall k: nat :: i <= k < n ==> !hit(k)
    decreases n - i
  {
    if i < n && !hit(i) {
      FirstHitNone(n, hit, cand, i + 1);
    }
  }

  /** What a scan finds is the answer of the earliest index from `i` on that hits. */
  lemma {:induction false} FirstHitSome(n: nat, hit: nat -> bool, cand: nat -> string, i: nat)
    ensures FirstHit(n, hit, cand, i).Some? ==>
              exists k: nat :: i <= k < n && hit(k) && FirstHit(n, hit, cand, i).value == cand(k)
                && (forall j: nat :: i <= j < k ==> !hit(j))
    decreases n - i
  {
    if i < n && !hit(i) {
      FirstHitSome(n, hit, cand, i + 1);
      if FirstHit(n, hit, cand, i + 1).Some? {
        var k: nat :| i + 1 <= k < n && hit(k) && FirstHit(n, hit, cand, i + 1).value == cand(k)
          && forall j: nat :: i + 1 <= j < k ==> !hit(j);
        assert forall j: nat :: i <= j < k ==> !hit(j);
      }
    }
  }

  /** Whether pair `k` hits, as a function of the index alone. */
  function HitAt(name: string, objExists: string -> bool): nat -> bool {
    (k: nat) => k < |Mirror| && Hit(name, objExists, k)
  }

  /** The candidate of pair `k`, as a function of the index alone. */
  function CandidateAt(name: string): nat -> string {
    (k: nat) => if k < |Mirror| then Candidate(name, k) else ""
  }

  /** The scan over MIRROR is the generic scan over its pairs. */
  lemma {:induction false} OppositeFromIsFirstHit(name: string, objExists: string -> bool, i: nat)
    ensures OppositeFrom(name, objExists, i) == FirstHit(|Mirror|, HitAt(name, objExists), CandidateAt(name), i)
    decreases |Mirror| - i
  {
    if i < |Mirror| {
      OppositeFromStep(name, objExists, i);
      OppositeFromIsFirstHit(name, objExists, i + 1);
    }
  }

  /** Scanning from pair `i` finds nothing exactly when no later pair hits. */
  lemma OppositeFromNone(name: string, objExists: string -> bool, i: nat)
    requires i <= |Mirror|
    ensures OppositeFrom(name, objExists, i).None? <==>
              forall k: nat :: i <= k < |Mirror| ==> !Hit(name, objExists, k)
  {
    var hit, cand := HitAt(name, objExists), CandidateAt(name);
    OppositeFromIsFirstHit(name, objExists, i);
    FirstHitNone(|Mirror|, hit, cand, i);
    assert forall k: nat :: i <= k < |Mirror| ==> (hit(k) <==> Hit(name, objExists, k));
  }

  /** What scanning from pair `i` finds is the candidate of the earliest later pair that hits. */
  lemma OppositeFromSome(name: string, objExists: string -> bool, i: nat)
    requires i <= |Mirror|
    ensures OppositeFrom(name, objExists, i).Some? ==>
              exists k: nat :: i <= k < |Mirror| && Hit(name, objExists, k)
                && OppositeFrom(name, objExists, i).value == Candidate(name, k)
                && (forall j: nat :: i <= j < k ==> !Hit(name, objExists, j))
  {
    var hit, cand := HitAt(name, objExists), CandidateAt(name);
    OppositeFromIsFirstHit(name, objExists, i);
    FirstHitSome(|Mirror|, hit, cand, i);
    if OppositeFrom(name, objExists, i).Some? {
      var k: nat :| i <= k < |Mirror| && hit(k) && OppositeFrom(name, objExists, i).value == cand(k)
        && (forall j: nat :: i <= j < k ==> !hit(j));
      assert Hit(name, objExists, k) && OppositeFrom(name, objExists, i).value == Candidate(name, k);
      forall j: nat | i <= j < k
        ensures !Hit(name, objExists, j)
      {
        assert !hit(j);
      }
    }
  }

  /**
   * find_opposite_name answers with the name proposed by the earliest pair,
   * in table order, whose pattern occurs and whose name exists; and with None
   * exactly when no pair has both.
   */
  lemma OppositeNameIsFirstHit(name: string, objExists: string -> bool)
    ensures OppositeName(name, objExists).None? <==>
              forall k: nat :: k < |Mirror| ==> !Hit(name, objExists, k)
    ensures OppositeName(name, objExists).Some? ==>
              objExists(OppositeName(name, objExists).value)
              && (exists k: nat :: k < |Mirror| && Hit(name, objExists, k)
                    && OppositeName(name, objExists).value == Candidate(name, k)
                    && (forall j: nat :: j < k ==> !Hit(name, objExists, j)))
  {
    OppositeFromNone(name, objExists, 0);
    OppositeFromSome(name, objExists, 0);
  }

  /**
   * A proposed name keeps the namespace of `name` untouched, and its control
   * part is the control part of `name` with the pattern replaced.
   */
  lemma CandidateKeepsNamespace(name: string, i: nat)
    requires i < |Mirror|
    ensures RPartition(Candidate(name, i)) ==
              Parts(RPartition(name).namespace,
                    ReplaceFirst(RPartition(name).control, Mirror[i].0, Mirror[i].1))
  {
    var parts := RPartition(name);
    var control := ReplaceFirst(parts.control, Mirror[i].0, Mirror[i].1);
    MirrorOppositesAreNames(i);
    ReplaceFirstNoColon(parts.control, Mirror[i].0, Mirror[i].1);
    if parts.namespace != "" {
      RPartitionOfJoin(parts.namespace, control);
    }
  }

  /** An opposite that is found keeps the namespace and is never the empty name. */
  lemma OppositeNameKeepsNamespace(name: string, objExists: string -> bool)
    requires OppositeName(name, objExists).Some?
    ensures RPartition(OppositeName(name, objExists).value).namespace == RPartition(name).namespace
    ensures OppositeName(name, objExists).value != ""
  {
    OppositeNameIsFirstHit(name, objExists);
    var k: nat :| k < |Mirror| && Hit(name, objExists, k)
      && OppositeName(name, objExists).value == Candidate(name, k);
    CandidateKeepsNamespace(name, k);
    MirrorOppositesAreNames(k);
    ReplaceFirstLength(RPartition(name).control, Mirror[k].0, Mirror[k].1);
  }

  /** One step of the scan: pair `i` hits, or the scan goes on from pair `i + 1`. */
  lemma OppositeFromStep(name: string, objExists: string -> bool, i: nat)
    requires i < |Mirror|
    ensures OppositeFrom(name, objExists, i) ==
              if Hit(name, objExists, i) then Some(Candidate(name, i)) else OppositeFrom(name, objExists, i + 1)
  {
  }

  /**
   * One pass of the loop body of find_opposite_name: replace the first
   * occurrence of pair `i`'s pattern in the control part, put the namespace
   * back, and keep the result when it exists in the scene.
   */
  method TryPair(name: string, objExists: string -> bool, i: nat) returns (hit: Option<string>)
    requires i < |Mirror|
    ensures hit.Some? <==> Hit(name, objExists, i)
    ensures hit.Some? ==> hit.value == Candidate(name, i)
  {
    var parts := RPartition(name);
    var pattern, oppositePattern := Mirror[i].0, Mirror[i].1;
    hit := None;
    if Contains(parts.control, pattern) {
      var newControl := ReplaceFirst(parts.control, pattern, oppositePattern);
      var candidate := if parts.namespace != "" then parts.namespace + ":" + newControl else newControl;
      if objExists(candidate) {
        hit := Some(candidate);
      }
    }
  }

  /** find_opposite_name, with the scene's objExists passed in. */
  method FindOppositeName(name: string, objExists: string -> bool) returns (r: Option<string>)
    ensures r == OppositeName(name, objExists)
    ensures r.Some? ==> objExists(r.value)
  {
    var i := 0;
    while i < |Mirror|
      invariant 0 <= i <= |Mirror|
      invariant OppositeFrom(name, objExists, i) == OppositeName(name, objExists)
    {
      OppositeFromStep(name, objExists, i);
      var hit := TryPair(name, objExists, i);
      if hit.Some? {
        OppositeNameExists(name, objExists);
        return hit;
      }
      i := i + 1;
    }
    return None;
  }

  /** An opposite that is found exists in the scene. */
  lemma OppositeNameExists(name: string, objExists: string -> bool)
    ensures OppositeName(name, objExists).Some? ==> objExists(OppositeName(name, objExists).value)
  {
    OppositeNameIsFirstHit(name, objExists);
  }

  /**
   * The names `opposite` finds for `ctls`, in input order, skipping the
   * controls it finds nothing for.
   */
  function Found(ctls: seq<string>, opposite: string -> Option<string>): (r: seq<string>)
    ensures |r| <= |ctls|
    decreases |ctls|
  {
    if ctls == [] then []
    else
      var init := Found(ctls[..|ctls| - 1], opposite);
      match opposite(ctls[|ctls| - 1])
      case None => init
      case Some(c) => init + [c]
  }

  /** What is found for a concatenation is what is found for each part, in order. */
  lemma {:induction false} FoundAppend(a: seq<string>, b: seq<string>, opposite: string -> Option<string>)
    ensures Found(a + b, opposite) == Found(a, opposite) + Found(b, opposite)
    decreases |b|
  {
    if b == [] {
      assert a + b == a;
    } else {
      var b' := b[..|b| - 1];
      assert (a + b)[..|a + b| - 1] == a + b';
      assert (a + b)[|a + b| - 1] == b[|b| - 1];
      FoundAppend(a, b', opposite);
    }
  }

  /** Nothing is found exactly when no control has a match. */
  lemma {:induction false} FoundEmpty(ctls: seq<string>, opposite: string -> Option<string>)
    ensures Found(ctls, opposite) == [] <==> forall k :: 0 <= k < |ctls| ==> opposite(ctls[k]).None?
    decreases |ctls|
  {
    if ctls != [] {
      var init := ctls[..|ctls| - 1];
      FoundEmpty(init, opposite);
      assert forall k :: 0 <= k < |init| ==> init[k] == ctls[k];
    }
  }

  /** Every name found is the match of some control. */
  lemma {:induction false} FoundFromControls(ctls: seq<string>, opposite: string -> Option<string>)
    ensures forall k :: 0 <= k < |Found(ctls, opposite)| ==>
              exists j :: 0 <= j < |ctls| && opposite(ctls[j]) == Some(Found(ctls, opposite)[k])
    decreases |ctls|
  {
    if ctls != [] {
      var init := ctls[..|ctls| - 1];
      FoundFromControls(init, opposite);
      var r, r' := Found(ctls, opposite), Found(init, opposite);
      var last := opposite(ctls[|ctls| - 1]);
      assert r == if last.Some? then r' + [last.value] else r';
      forall k | 0 <= k < |r|
        ensures exists j :: 0 <= j < |ctls| && opposite(ctls[j]) == Some(r[k])
      {
        if k < |r'| {
          var j :| 0 <= j < |init| && opposite(init[j]) == Some(r'[k]);
          assert ctls[j] == init[j] && r[k] == r'[k];
          assert opposite(ctls[j]) == Some(r[k]);
        } else {
          assert opposite(ctls[|ctls| - 1]) == Some(r[k]);
        }
      }
    } else {
      assert Found(ctls, opposite) == [];
    }
  }

  /** find_opposite_name as a lookup function for `objExists`. */
  function OppositeLookup(objExists: string -> bool): string -> Option<string> {
    name => OppositeName(name, objExists)
  }

  /** Every opposite the list holds exists in the scene. */
  lemma OppositesExist(ctls: seq<string>, objExists: string -> bool)
    ensures forall k :: 0 <= k < |Found(ctls, OppositeLookup(objExists))| ==>
              objExists(Found(ctls, OppositeLookup(objExists))[k])
  {
    var r := Found(ctls, OppositeLookup(objExists));
    FoundFromControls(ctls, OppositeLookup(objExists));
    forall k | 0 <= k < |r| ensures objExists(r[k]) {
      var j :| 0 <= j < |ctls| && OppositeLookup(objExists)(ctls[j]) == Some(r[k]);
      OppositeNameExists(ctls[j], objExists);
    }
  }

  /** The opposites of `ctls` that exist, in input order. */
  function OppositeList(ctls: seq<string>, objExists: string -> bool): (r: seq<string>)
    ensures |r| <= |ctls|
    ensures forall k :: 0 <= k < |r| ==> objExists(r[k])
  {
    OppositesExist(ctls, objExists);
    Found(ctls, OppositeLookup(objExists))
  }

  /** The list is empty (launch_for_opposite's "No opposite found") iff no control has an opposite. */
  lemma OppositeListEmpty(ctls: seq<string>, objExists: string -> bool)
    ensures OppositeList(ctls, objExists) == [] <==>
              forall k :: 0 <= k < |ctls| ==> OppositeName(ctls[k], objExists).None?
  {
    FoundEmpty(ctls, OppositeLookup(objExists));
  }

  /** get_opposite_ctl_list: the opposites found, skipping controls without one. */
  method GetOppositeCtlList(ctls: seq<string>, objExists: string -> bool) returns (r: seq<string>)
    ensures r == OppositeList(ctls, objExists)
  {
    r := [];
    for i := 0 to |ctls|
      invariant r == OppositeList(ctls[..i], objExists)
    {
      var opposite := FindOppositeName(ctls[i], objExists);
      assert ctls[..i + 1][..i] == ctls[..i];
      if opposite.Some? {
        OppositeNameKeepsNamespace(ctls[i], objExists);
      }
      if opposite.None? || opposite.value == "" {
        continue;
      }
      r := r + [opposite.value];
    }
    assert ctls[..|ctls|] == ctls;
  }
}
