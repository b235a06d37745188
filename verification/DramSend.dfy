/** Returning completed requests to the network (dram_ctrl_c::send). */
module DramSend {
  import opened Lists
  import opened DramTypes

  predicate IsGpu(r: Req) { r.gpu }

  /** One pass over the output buffer: what was sent, how many attempts the
      network has seen so far, and which classes were attempted. */
  datatype Pass = Pass(sent: seq<Req>, tried: nat, cpu: bool, gpu: bool)

  /** The inner loop of send(). `accepts` is the network's answer to each
      attempt of this cycle; the first rejection ends the pass. */
  function SendPass(out: seq<Req>, allowCpu: bool, allowGpu: bool, accepts: seq<bool>, tried: nat): Pass {
    if out == [] then Pass([], tried, false, false)
    else
      var r := out[0];
      if !(if r.gpu then allowGpu else allowCpu) then SendPass(out[1..], allowCpu, allowGpu, accepts, tried)
      else if tried < |accepts| && accepts[tried] then
        var p := SendPass(out[1..], allowCpu, allowGpu, accepts, tried + 1);
        Pass([r] + p.sent, p.tried, p.cpu || !r.gpu, p.gpu || r.gpu)
      else Pass([], tried + 1, !r.gpu, r.gpu)
  }

  /** One step of a pass that has reached position i. */
  lemma SendPassAt(out: seq<Req>, i: nat, allowCpu: bool, allowGpu: bool, accepts: seq<bool>, tried: nat)
    requires i < |out|
    ensures var r := out[i];
      SendPass(out[i..], allowCpu, allowGpu, accepts, tried) ==
        if !(if r.gpu then allowGpu else allowCpu) then SendPass(out[i + 1..], allowCpu, allowGpu, accepts, tried)
        else if tried < |accepts| && accepts[tried] then
          var p := SendPass(out[i + 1..], allowCpu, allowGpu, accepts, tried + 1);
          Pass([r] + p.sent, p.tried, p.cpu || !r.gpu, p.gpu || r.gpu)
        else Pass([], tried + 1, !r.gpu, r.gpu)
  {
    assert out[i..][1..] == out[i + 1..];
  }

  lemma SendPassEnd(allowCpu: bool, allowGpu: bool, accepts: seq<bool>, tried: nat)
    ensures SendPass([], allowCpu, allowGpu, accepts, tried) == Pass([], tried, false, false)
  {
  }

  /** Everything send() transmits in one cycle. With partitioned virtual
      channels a second pass serves the class the first pass did not reach. */
  function Sent(cfg: Config, out: seq<Req>, accepts: seq<bool>): seq<Req> {
    var first := SendPass(out, true, true, accepts, 0);
    if !cfg.partition || (first.cpu && first.gpu) then first.sent
    else first.sent + SendPass(out, !first.cpu, !first.gpu, accepts, first.tried).sent
  }

  /** The network takes the n-th attempt counted from `tried`. */
  predicate Accepted(accepts: seq<bool>, tried: nat, n: nat) {
    tried + n < |accepts| && accepts[tried + n]
  }

  /** A pass in which both classes are allowed sends a prefix of the buffer, and
      it stops only at the end or at a rejection. */
  lemma {:induction false} FullPass(out: seq<Req>, accepts: seq<bool>, tried: nat)
    ensures var p := SendPass(out, true, true, accepts, tried);
      && |p.sent| <= |out| && p.sent == out[..|p.sent|]
      && (|p.sent| == |out| || !Accepted(accepts, tried, |p.sent|))
      && (forall i :: 0 <= i < |p.sent| ==> Accepted(accepts, tried, i))
      && (p.cpu <==> exists i :: 0 <= i < |out| && i <= |p.sent| && !out[i].gpu)
      && (p.gpu <==> exists i :: 0 <= i < |out| && i <= |p.sent| && out[i].gpu)
  {
    if out != [] {
      FullPass(out[1..], accepts, tried + 1);
      var p, q := SendPass(out, true, true, accepts, tried), SendPass(out[1..], true, true, accepts, tried + 1);
      if tried < |accepts| && accepts[tried] {
        assert forall i {:trigger Accepted(accepts, tried, i)} :: 1 <= i ==>
          Accepted(accepts, tried, i) == Accepted(accepts, tried + 1, i - 1);
        assert forall i {:trigger out[i]} :: 1 <= i < |out| ==> out[i] == out[1..][i - 1];
      }
    }
  }

  /** A pass restricted to one class sends a prefix of that class, and stops
      only at its end or at a rejection. */
  lemma {:induction false} ClassPass(out: seq<Req>, gpu: bool, accepts: seq<bool>, tried: nat)
    ensures var p := SendPass(out, !gpu, gpu, accepts, tried);
      && p.sent <= Select(IsGpu, gpu, out)
      && (p.sent == Select(IsGpu, gpu, out) || !Accepted(accepts, tried, |p.sent|))
  {
    if out != [] {
      ClassPass(out[1..], gpu, accepts, tried);
      ClassPass(out[1..], gpu, accepts, tried + 1);
      SelectHead(IsGpu, gpu, out);
    }
  }

  /** What send() transmits: a prefix of the buffer, then possibly a prefix of
      a class g that does not occur in the first part. */
  ghost predicate SentShape(out: seq<Req>, k: nat, g: bool, second: seq<Req>) {
    && k <= |out|
    && second <= Select(IsGpu, g, out)
    && (second != [] ==> forall r :: r in out[..k] ==> r.gpu == !g)
  }

  lemma SentHasShape(cfg: Config, out: seq<Req>, accepts: seq<bool>) returns (k: nat, g: bool, second: seq<Req>)
    ensures SentShape(out, k, g, second)
    ensures Sent(cfg, out, accepts) == out[..k] + second
  {
    var first := SendPass(out, true, true, accepts, 0);
    FullPass(out, accepts, 0);
    k, g, second := |first.sent|, !first.gpu, [];
    if cfg.partition && !(first.cpu && first.gpu) {
      second := SendPass(out, !first.cpu, !first.gpu, accepts, first.tried).sent;
      if out != [] {
        assert first.cpu == !first.gpu by {
          assert out[0].gpu || !out[0].gpu;
        }
        ClassPass(out, g, accepts, first.tried);
      }
    }
  }

  lemma ShapeIsPrefix(out: seq<Req>, k: nat, g: bool, second: seq<Req>, gpu: bool)
    requires SentShape(out, k, g, second)
    ensures Select(IsGpu, gpu, out[..k] + second) <= Select(IsGpu, gpu, out)
  {
    var part, rest := Select(IsGpu, gpu, out[..k]), Select(IsGpu, gpu, out[k..]);
    assert Select(IsGpu, gpu, out) == part + rest by {
      assert out == out[..k] + out[k..];
      SelectAppend(IsGpu, gpu, out[..k], out[k..]);
    }
    SelectAppend(IsGpu, gpu, out[..k], second);
    assert forall r :: r in second ==> r in Select(IsGpu, g, out);
    SelectSame(IsGpu, g, second);
    if second == [] {
      assert part + [] == part;
    } else if gpu == g {
      SelectSame(IsGpu, !g, out[..k]);
      assert [] + second == second;
    } else {
      assert part + [] == part;
    }
  }

  /** For any pattern of network answers, send() transmits a prefix of each
      class, in buffer order. */
  lemma {:induction false} SendsPrefixOfEachClass(cfg: Config, out: seq<Req>, accepts: seq<bool>, gpu: bool)
    ensures Select(IsGpu, gpu, Sent(cfg, out, accepts)) <= Select(IsGpu, gpu, out)
  {
    var k, g, second := SentHasShape(cfg, out, accepts);
    ShapeIsPrefix(out, k, g, second, gpu);
  }

  /** No request is transmitted twice in a call, and send() removes exactly what
      it transmits. */
  lemma {:induction false} SendsOnce(cfg: Config, out: seq<Req>, accepts: seq<bool>)
    requires NoDup(out)
    ensures NoDup(Sent(cfg, out, accepts))
    ensures forall r :: r in Sent(cfg, out, accepts) ==> r in out
    ensures multiset(out) == multiset(Without(out, Sent(cfg, out, accepts))) + multiset(Sent(cfg, out, accepts))
  {
    var k, g, second := SentHasShape(cfg, out, accepts);
    SelectNoDup(IsGpu, g, out);
    assert forall r :: r in second ==> r in Select(IsGpu, g, out);
    NoDupAppend(out[..k], second);
    WithoutConserves(out, Sent(cfg, out, accepts));
  }

  // ----- exactly what is sent

  /** The attempts up to n are accepted, and the next one, if there is one, is refused. */
  ghost predicate StopsAt(accepts: seq<bool>, tried: nat, n: nat, size: nat) {
    n <= size && (forall i :: 0 <= i < n ==> Accepted(accepts, tried, i)) && (n == size || !Accepted(accepts, tried, n))
  }

  /** Only one class has been attempted when the attempt for position n is refused. */
  ghost predicate OneClass(out: seq<Req>, n: nat) {
    n < |out| && forall i :: 0 <= i < n ==> out[i].gpu == out[n].gpu
  }

  /** The requests before the first refusal and, under partition, when the other class has
      not been attempted by then, the requests of that class before its first refusal. */
  ghost predicate SendsExactly(cfg: Config, out: seq<Req>, accepts: seq<bool>, n: nat, m: nat, sent: seq<Req>) {
    && StopsAt(accepts, 0, n, |out|)
    && if cfg.partition && OneClass(out, n) then
         var others := Select(IsGpu, !out[n].gpu, out);
         StopsAt(accepts, n + 1, m, |others|) && sent == out[..n] + others[..m]
       else m == 0 && sent == out[..n]
  }

  lemma {:induction false} FullPassTried(out: seq<Req>, accepts: seq<bool>, tried: nat)
    ensures var p := SendPass(out, true, true, accepts, tried);
      p.tried == tried + |p.sent| + if |p.sent| < |out| then 1 else 0
  {
    if out != [] {
      FullPassTried(out[1..], accepts, tried + 1);
    }
  }

  lemma {:induction false} ClassPassAccepted(out: seq<Req>, gpu: bool, accepts: seq<bool>, tried: nat)
    ensures var p := SendPass(out, !gpu, gpu, accepts, tried);
      forall i :: 0 <= i < |p.sent| ==> Accepted(accepts, tried, i)
  {
    if out != [] {
      ClassPassAccepted(out[1..], gpu, accepts, tried);
      ClassPassAccepted(out[1..], gpu, accepts, tried + 1);
      assert forall i {:trigger Accepted(accepts, tried, i)} :: 1 <= i ==>
        Accepted(accepts, tried, i) == Accepted(accepts, tried + 1, i - 1);
    }
  }

  /** For every pattern of answers send() transmits exactly this. */
  lemma {:induction false} SendsUntilRefused(cfg: Config, out: seq<Req>, accepts: seq<bool>) returns (n: nat, m: nat)
    ensures SendsExactly(cfg, out, accepts, n, m, Sent(cfg, out, accepts))
  {
    hide SendPass;
    var first := SendPass(out, true, true, accepts, 0);
    FullPass(out, accepts, 0);
    FullPassTried(out, accepts, 0);
    n, m := |first.sent|, 0;
    ClassesTried(out, n, first);
    if cfg.partition && OneClass(out, n) {
      var g := !out[n].gpu;
      ClassPass(out, g, accepts, n + 1);
      ClassPassAccepted(out, g, accepts, n + 1);
      m := |SendPass(out, !g, g, accepts, n + 1).sent|;
      var others := Select(IsGpu, g, out);
      assert SendPass(out, !g, g, accepts, n + 1).sent == others[..m];
    } else if cfg.partition && !(first.cpu && first.gpu) {
      assert n == |out|;
      NothingLeft(out, !first.cpu, !first.gpu, accepts, first.tried, first);
      assert out[..n] + [] == out[..n];
    }
  }

  /** Which classes the first pass has attempted. */
  lemma ClassesTried(out: seq<Req>, n: nat, first: Pass)
    requires n <= |out|
    requires first.cpu <==> exists i :: 0 <= i < |out| && i <= n && !out[i].gpu
    requires first.gpu <==> exists i :: 0 <= i < |out| && i <= n && out[i].gpu
    ensures OneClass(out, n) ==> first.gpu == out[n].gpu && first.cpu == !out[n].gpu
    ensures n < |out| && !OneClass(out, n) ==> first.cpu && first.gpu
    ensures n == |out| ==> forall r :: r in out ==> if r.gpu then first.gpu else first.cpu
  {
    assert n < |out| ==> out[n].gpu || !out[n].gpu;
    if n < |out| && !OneClass(out, n) {
      var i :| 0 <= i < n && out[i].gpu != out[n].gpu;
      assert out[i].gpu == !out[n].gpu;
    }
    if n == |out| {
      forall r | r in out
        ensures if r.gpu then first.gpu else first.cpu
      {
        var i :| 0 <= i < |out| && out[i] == r;
      }
    }
  }

  /** A pass in which no class of the buffer is allowed sends nothing. */
  lemma {:induction false} NothingLeft(out: seq<Req>, allowCpu: bool, allowGpu: bool, accepts: seq<bool>, tried: nat,
                                       first: Pass)
    requires allowCpu == !first.cpu && allowGpu == !first.gpu
    requires forall r :: r in out ==> if r.gpu then first.gpu else first.cpu
    ensures SendPass(out, allowCpu, allowGpu, accepts, tried).sent == []
  {
    if out != [] {
      assert out[0] in out;
      NothingLeft(out[1..], allowCpu, allowGpu, accepts, tried, first);
    }
  }

  /** A class is sent in full. */
  ghost predicate ClassDone(out: seq<Req>, sent: seq<Req>, gpu: bool) {
    Select(IsGpu, gpu, sent) == Select(IsGpu, gpu, out)
  }

  /** An attempt of the class was refused. */
  ghost predicate ClassRefused(cfg: Config, out: seq<Req>, n: nat, m: nat, gpu: bool) {
    n < |out| &&
    (out[n].gpu == gpu || (cfg.partition && OneClass(out, n) && m < |Select(IsGpu, !out[n].gpu, out)|))
  }

  /** Every class is sent in full or has been refused itself, if and only if nothing is
      refused, or the second pass takes place, or only the refused class is left. Otherwise
      requests of a class wait although none of that class was refused. */
  lemma {:induction false} NoClassWaitsForTheOtherIff(cfg: Config, out: seq<Req>, accepts: seq<bool>, n: nat, m: nat)
    requires SendsExactly(cfg, out, accepts, n, m, Sent(cfg, out, accepts))
    ensures (forall gpu :: ClassDone(out, Sent(cfg, out, accepts), gpu) || ClassRefused(cfg, out, n, m, gpu)) <==>
      n == |out| || (cfg.partition && OneClass(out, n)) || (forall i :: n <= i < |out| ==> out[i].gpu == out[n].gpu)
  {
    hide Sent, Select;
    var sent := Sent(cfg, out, accepts);
    if n == |out| {
      assert out[..n] == out;
    } else {
      var g := out[n].gpu;
      if cfg.partition && OneClass(out, n) {
        SecondPass(out, n, m);
      } else {
        RestOfClass(out, n, !g);
        assert ClassRefused(cfg, out, n, m, g) && !ClassRefused(cfg, out, n, m, !g);
      }
    }
  }

  lemma RestOfClass(out: seq<Req>, n: nat, gpu: bool)
    requires n <= |out|
    ensures ClassDone(out, out[..n], gpu) <==> forall i :: n <= i < |out| ==> out[i].gpu != gpu
  {
    var tail := out[n..];
    assert out == out[..n] + tail;
    SelectAppend(IsGpu, gpu, out[..n], tail);
    assert ClassDone(out, out[..n], gpu) <==> Select(IsGpu, gpu, tail) == [];
    if forall i :: n <= i < |out| ==> out[i].gpu != gpu {
      assert forall r :: r in tail ==> r.gpu == !gpu;
      SelectSame(IsGpu, !gpu, tail);
    } else {
      var i :| n <= i < |out| && out[i].gpu == gpu;
      assert tail[i - n] in tail && IsGpu(tail[i - n]) == gpu;
    }
  }

  lemma SecondPass(out: seq<Req>, n: nat, m: nat)
    requires OneClass(out, n) && m <= |Select(IsGpu, !out[n].gpu, out)|
    ensures var others := Select(IsGpu, !out[n].gpu, out);
      m == |others| ==> ClassDone(out, out[..n] + others[..m], !out[n].gpu)
  {
    var g := !out[n].gpu;
    var others := Select(IsGpu, g, out);
    if m == |others| {
      assert others[..m] == others;
      SelectAppend(IsGpu, g, out[..n], others);
      SelectSame(IsGpu, !g, out[..n]);
      SelectSame(IsGpu, g, others);
      assert [] + others == others;
    }
  }

  /** With the channels partitioned a CPU request waits although no CPU request was
      refused: one went out before the GPU request that was refused. */
  lemma {:induction false} ClassWaitsForTheOther(cfg: Config, c1: Req, g1: Req, c2: Req)
    requires cfg.partition && !c1.gpu && g1.gpu && !c2.gpu
    ensures Sent(cfg, [c1, g1, c2], [true, false, true]) == [c1]
  {
    var out := [c1, g1, c2];
    var n, m := SendsUntilRefused(cfg, out, [true, false, true]);
    assert Accepted([true, false, true], 0, 0) && !Accepted([true, false, true], 0, 1);
    assert n == 1 && out[0].gpu != out[1].gpu;
    assert out[..1] == [c1];
  }
}
