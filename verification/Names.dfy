/** The composite names the bus builds with snprintf, and when they can be told apart. */
module Names {
  import opened IarmTypes

  /** The five methods a member may publish to be called on a broadcast. */
  datatype PreChange =
    | PowerPreChange
    | DeepSleepWakeup
    | ResolutionPreChange
    | ResolutionPostChange
    | SysModeChange
  {
    function MethodName(): (s: Name)
      ensures |s| <= 20 && '_' !in s
    {
      match this
      case PowerPreChange => "PowerPreChange"
      case DeepSleepWakeup => "DeepSleepWakeup"
      case ResolutionPreChange => "ResolutionPreChange"
      case ResolutionPostChange => "ResolutionPostChange"
      case SysModeChange => "SysModeChange"
    }
  }

  /** Which method each broadcast calls; no two call the same. */
  lemma MethodNames(p: PreChange, q: PreChange)
    ensures PowerPreChange.MethodName() == "PowerPreChange" && DeepSleepWakeup.MethodName() == "DeepSleepWakeup"
    ensures ResolutionPreChange.MethodName() == "ResolutionPreChange"
    ensures ResolutionPostChange.MethodName() == "ResolutionPostChange"
    ensures SysModeChange.MethodName() == "SysModeChange"
    ensures p.MethodName() == q.MethodName() <==> p == q
  {
    var power, wake: string := "PowerPreChange", "DeepSleepWakeup";
    var pre, post, mode: string := "ResolutionPreChange", "ResolutionPostChange", "SysModeChange";
    assert |power| == 14 && |wake| == 15 && |pre| == 19 && |post| == 20 && |mode| == 13;
    assert |p.MethodName()| == |q.MethodName()| ==> p == q;
  }

  /** owner, separator and method printed into a buffer of two name lengths. */
  function Join(owner: Name, meth: Name): string {
    Trunc(owner + "_" + meth, 2 * MAX_NAME_LEN - 1)
  }

  /** Two names that fit their own buffers are never cut when joined. */
  lemma JoinFits(owner: Name, meth: Name)
    ensures Join(owner, meth) == owner + "_" + meth
  {
  }

  /** Exactly which subscriptions produce the key that a broadcast looks up. */
  lemma JoinExact(o: Name, m: Name, n: Name, k: Name)
    requires '_' !in k
    ensures Join(o, m) == Join(n, k) <==>
              (o == n && m == k) || (exists p :: m == p + "_" + k && n == o + "_" + p)
  {
    var a, b := o + "_" + m, n + "_" + k;
    if exists p :: m == p + "_" + k && n == o + "_" + p {
      var p :| m == p + "_" + k && n == o + "_" + p;
      assert a == b;
    }
    if a == b {
      LastSeparator(o, m, n, k);
    }
  }

  lemma LastSeparator(o: string, m: string, n: string, k: string)
    requires '_' !in k
    requires o + "_" + m == n + "_" + k
    ensures (o == n && m == k) || (exists p :: m == p + "_" + k && n == o + "_" + p)
  {
    var a, b := o + "_" + m, n + "_" + k;
    assert a[|o|] == '_';
    assert forall i :: |n| < i < |b| ==> b[i] == k[i - |n| - 1] && b[i] != '_';
    if |o| == |n| {
      assert o == a[..|o|] && n == b[..|n|];
      assert m == a[|o|+1..] && k == b[|n|+1..];
    } else {
      var p := n[|o|+1..];
      assert n == b[..|n|] && o == a[..|o|];
      assert n == n[..|o|] + [n[|o|]] + p;
      assert n[..|o|] == o && n[|o|] == '_';
      assert m == a[|o|+1..] == b[|o|+1..] == p + "_" + k;
    }
  }

  /** Among underscore-free methods the key determines owner and method. */
  lemma JoinInjective(o: Name, m: Name, n: Name, k: Name)
    requires '_' !in m && '_' !in k
    ensures Join(o, m) == Join(n, k) <==> o == n && m == k
  {
    JoinExact(o, m, n, k);
    forall p: string ensures m != p + "_" + k {
      assert (p + "_" + k)[|p|] == '_';
    }
  }

  /** A method name with an underscore can forge another member's key. */
  lemma JoinCollides()
    ensures Join("A", "B_PowerPreChange") == Join("A_B", PowerPreChange.MethodName())
  {
    assert "A" + "_" + "B_PowerPreChange" == "A_B" + "_" + "PowerPreChange";
  }

  // ---------------------------------------------------------------- bus names

  /** The bus name that a member obtains when it initializes; its buffer has room for any member. */
  function BusName(member: string): string {
    "process.iarm." + member
  }

  /** A caller's copy of it, in a buffer of one name length; a name that does not fit leaves it empty. */
  function Target(member: string): string {
    if |BusName(member)| < MAX_NAME_LEN then BusName(member) else ""
  }

  /** IARM_MAX_NAME_LEN less the prefix and the terminator */
  const MAX_ADDRESS: nat := 50

  predicate Addressable(member: string) {
    |member| <= MAX_ADDRESS
  }

  /** A call addressed to `callee` is addressed to member `m` exactly if that is it, and its name is short. */
  lemma TargetExact(callee: string, m: Name)
    ensures Target(callee) == BusName(m) <==> callee == m && Addressable(callee)
    ensures Target(callee) != "" <==> Addressable(callee)
    ensures |callee| <= 50 ==> Target(callee) == "process.iarm." + callee
  {
    assert BusName(m)[13..] == m && BusName(callee)[13..] == callee;
    assert |BusName(callee)| == 13 + |callee|;
  }

  // ---------------------------------------------------------------- component names

  function Digit(d: nat): char
    requires d < 10
  {
    "0123456789"[d]
  }

  /** "%d" of a non-negative number. */
  function Decimal(n: nat): (s: string)
    ensures |s| > 0 && (|s| == 1 <==> n < 10)
  {
    if n < 10 then [Digit(n)] else Decimal(n / 10) + [Digit(n % 10)]
  }

  lemma {:induction false} DecimalInjective(a: nat, b: nat)
    requires Decimal(a) == Decimal(b)
    ensures a == b
  {
    var s, t := Decimal(a), Decimal(b);
    assert s[|s|-1] == Digit(a % 10) && t[|t|-1] == Digit(b % 10);
    if a >= 10 {
      assert s[..|s|-1] == Decimal(a / 10) && t[..|t|-1] == Decimal(b / 10);
      DecimalInjective(a / 10, b / 10);
    }
  }

  /** Component name of a listener: the event id alone. */
  function EventNode(id: nat): string {
    "IARM_Event_" + Decimal(id)
  }

  /** Component name of a published call. */
  function CallNode(owner: Name, call: string): string {
    Trunc("_IARMC_" + owner + "_" + call, MAX_NAME_LEN - 1)
  }

  /** Component name of an event source. */
  function SourceNode(owner: Name): string {
    Trunc("_IARME_" + owner, MAX_NAME_LEN - 1)
  }

  /** Listener components are told apart by id, and from every other component. */
  lemma NodesDistinct(i: nat, j: nat, owner: Name, call: string)
    ensures EventNode(i) == EventNode(j) <==> i == j
    ensures EventNode(i) != CallNode(owner, call)
    ensures EventNode(i) != SourceNode(owner)
  {
    if EventNode(i) == EventNode(j) {
      assert Decimal(i) == EventNode(i)[11..] && Decimal(j) == EventNode(j)[11..];
      DecimalInjective(i, j);
    }
    assert EventNode(i)[0] == 'I';
    assert CallNode(owner, call)[0] == '_' && SourceNode(owner)[0] == '_';
  }
}
