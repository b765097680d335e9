/** What the partition of an argument list means element by element: which elements
    are options, which are their arguments, and which are operands. */
module GetoptRoles {
  import opened Getopt

  datatype Role = Option | Argument | Operand

  predicate LooksLikeOption(arg: string) {
    |arg| >= 2 && arg[0] == '-'
  }

  /** Element i follows an option that takes it along. */
  predicate Claimed(d: Decoder, args: seq<string>, roles: seq<Role>, i: nat)
    requires i < |args| == |roles|
  {
    i > 0 && roles[i - 1] == Option && args[i - 1] != "--" && d.takesNext(args[i - 1])
  }

  /** Element j is the "--" that ends the options. */
  predicate Terminates(args: seq<string>, roles: seq<Role>, j: nat)
    requires j < |args| == |roles|
  {
    roles[j] == Option && args[j] == "--"
  }

  predicate TerminatedBefore(args: seq<string>, roles: seq<Role>, i: nat)
    requires i < |args| == |roles|
  {
    exists j :: 0 <= j < i && Terminates(args, roles, j)
  }

  /** Element i has the right role: an argument exactly behind an option that takes
      it, otherwise an operand behind "--", otherwise what it looks like. */
  predicate RightRole(d: Decoder, args: seq<string>, roles: seq<Role>, i: nat)
    requires i < |args| == |roles|
  {
    && (roles[i] == Argument <==> Claimed(d, args, roles, i))
    && (roles[i] == Option ==> LooksLikeOption(args[i]) && !TerminatedBefore(args, roles, i))
    && (roles[i] == Operand ==> !LooksLikeOption(args[i]) || TerminatedBefore(args, roles, i))
  }

  ghost predicate Classified(d: Decoder, args: seq<string>, roles: seq<Role>) {
    |args| == |roles| && forall i: nat :: i < |args| ==> RightRole(d, args, roles, i)
  }

  /** The elements that are operands, or those that are not, in order. */
  function Selected(args: seq<string>, roles: seq<Role>, operands: bool): seq<string>
    requires |args| == |roles|
    decreases |args|
  {
    if args == [] then []
    else
      (if (roles[0] == Operand) == operands then [args[0]] else []) + Selected(args[1..], roles[1..], operands)
  }

  /** One call for each character of each option, and one for an option without any. */
  function Served(d: Decoder, args: seq<string>, roles: seq<Role>): nat
    requires |args| == |roles|
    decreases |args|
  {
    if args == [] then 0
    else
      (if roles[0] == Option && args[0] != "--" then
         if d.letters(args[0]) == 0 then 1 else d.letters(args[0])
       else 0)
      + Served(d, args[1..], roles[1..])
  }

  /** There is only one way to classify the elements. */
  lemma {:induction false} RolesAreUnique(d: Decoder, args: seq<string>, a: seq<Role>, b: seq<Role>, n: nat)
    requires Classified(d, args, a) && Classified(d, args, b) && n <= |args|
    ensures a[..n] == b[..n]
    decreases n
  {
    if n > 0 {
      RolesAreUnique(d, args, a, b, n - 1);
      var i := n - 1;
      assert RightRole(d, args, a, i) && RightRole(d, args, b, i);
      forall j | 0 <= j < i ensures a[j] == b[j] {
        assert a[..i][j] == b[..i][j];
      }
      assert Claimed(d, args, a, i) == Claimed(d, args, b, i);
      assert forall j :: 0 <= j < i ==> Terminates(args, a, j) == Terminates(args, b, j);
      assert a[..n] == a[..i] + [a[i]] && b[..n] == b[..i] + [b[i]];
    }
  }

  lemma {:induction false} AllOperands(d: Decoder, args: seq<string>, roles: seq<Role>)
    requires |args| == |roles| && forall i :: 0 <= i < |roles| ==> roles[i] == Operand
    ensures Selected(args, roles, true) == args && Selected(args, roles, false) == []
    ensures Served(d, args, roles) == 0
    decreases |args|
  {
    if args != [] {
      AllOperands(d, args[1..], roles[1..]);
    }
  }

  lemma TerminatorRoles(d: Decoder, args: seq<string>) returns (roles: seq<Role>)
    requires args != [] && args[0] == "--"
    ensures Classified(d, args, roles)
    ensures Selected(args, roles, false) == ["--"] && Selected(args, roles, true) == args[1..]
    ensures Served(d, args, roles) == 0
  {
    var rest := seq(|args| - 1, _ => Operand);
    roles := [Option] + rest;
    assert roles[1..] == rest;
    AllOperands(d, args[1..], rest);
    assert Terminates(args, roles, 0);
  }

  /** Roles of the rest behind an element, or behind an option and its argument. */
  lemma RolesPrepended(d: Decoder, args: seq<string>, front: seq<Role>, rest: seq<Role>)
    requires 1 <= |front| <= 2 && |front| <= |args| && Classified(d, args[|front|..], rest)
    requires args[0] != "--" || front[0] == Operand
    requires if |front| == 1 then
        || (front == [Operand] && !LooksLikeOption(args[0]))
        || (front == [Option] && LooksLikeOption(args[0]) && (d.takesNext(args[0]) ==> |args| == 1))
      else front == [Option, Argument] && LooksLikeOption(args[0]) && d.takesNext(args[0])
    ensures Classified(d, args, front + rest)
  {
    var k, roles := |front|, front + rest;
    forall i: nat | i < |args| ensures RightRole(d, args, roles, i) {
      if i >= k {
        assert RightRole(d, args[k..], rest, i - k);
        assert Claimed(d, args, roles, i) == Claimed(d, args[k..], rest, i - k);
        TerminatedShifts(args, roles, rest, k, i);
      }
    }
  }

  lemma TerminatedShifts(args: seq<string>, roles: seq<Role>, rest: seq<Role>, k: nat, i: nat)
    requires k <= i < |args| == |roles| && roles[k..] == rest
    requires forall j :: 0 <= j < k ==> !Terminates(args, roles, j)
    ensures TerminatedBefore(args, roles, i) == TerminatedBefore(args[k..], rest, i - k)
  {
    if TerminatedBefore(args, roles, i) {
      var j :| 0 <= j < i && Terminates(args, roles, j);
      assert Terminates(args[k..], rest, j - k);
    }
    if TerminatedBefore(args[k..], rest, i - k) {
      var j :| 0 <= j < i - k && Terminates(args[k..], rest, j);
      assert Terminates(args, roles, j + k);
    }
  }

  /** The options of the partition are the elements in option and argument role, its
      operands those in operand role, each in order. */
  lemma {:induction false} PartitionByRole(d: Decoder, args: seq<string>) returns (roles: seq<Role>)
    ensures Classified(d, args, roles)
    ensures Partition(d, args).options == Selected(args, roles, false)
    ensures Partition(d, args).operands == Selected(args, roles, true)
    ensures Calls(d, args) == Served(d, args, roles)
    decreases |args|
  {
    if args == [] {
      roles := [];
    } else if args[0] == "--" {
      roles := TerminatorRoles(d, args);
    } else if NonOption(args[0]) {
      var rest := PartitionByRole(d, args[1..]);
      roles := [Operand] + rest;
      RolesPrepended(d, args, [Operand], rest);
      assert roles[1..] == rest;
    } else {
      var k := Uses(d, args);
      var front := if k == 2 then [Option, Argument] else [Option];
      var rest := PartitionByRole(d, args[k..]);
      roles := front + rest;
      RolesPrepended(d, args, front, rest);
      OptionSelected(args, front, rest);
      OptionServed(d, args, front, rest);
    }
  }

  lemma OptionServed(d: Decoder, args: seq<string>, front: seq<Role>, rest: seq<Role>)
    requires front == [Option] || front == [Option, Argument]
    requires |args| == |front| + |rest| && args[0] != "--"
    ensures Served(d, args, front + rest) == Letters(d, args[0]) + Served(d, args[|front|..], rest)
  {
    var roles := front + rest;
    assert roles[1..] == front[1..] + rest;
    if |front| == 2 {
      assert roles[1..][1..] == rest && args[1..][1..] == args[2..];
      assert roles[1..][0] == Argument;
    } else {
      assert roles[1..] == rest;
    }
  }

  lemma OptionSelected(args: seq<string>, front: seq<Role>, rest: seq<Role>)
    requires front == [Option] || front == [Option, Argument]
    requires |args| == |front| + |rest|
    ensures var k, roles := |front|, front + rest;
      && Selected(args, roles, false) == args[..k] + Selected(args[k..], rest, false)
      && Selected(args, roles, true) == Selected(args[k..], rest, true)
  {
    hide Selected;
    if |front| == 1 {
      SelectedFirst(args, Option, rest);
      assert args[..1] == [args[0]];
    } else {
      SelectedFirst(args, Option, [Argument] + rest);
      SelectedFirst(args[1..], Argument, rest);
      SecondSelected(args[0], args[1], Selected(args[2..], rest, false));
      assert front + rest == [Option] + ([Argument] + rest);
      assert args[1..][1..] == args[2..] && args[..2] == [args[0], args[1]];
    }
  }

  lemma SelectedFirst(args: seq<string>, role: Role, rest: seq<Role>)
    requires |args| == 1 + |rest|
    ensures Selected(args, [role] + rest, false)
      == (if role == Operand then [] else [args[0]]) + Selected(args[1..], rest, false)
    ensures Selected(args, [role] + rest, true)
      == (if role == Operand then [args[0]] else []) + Selected(args[1..], rest, true)
  {
    assert ([role] + rest)[1..] == rest;
  }

  lemma SecondSelected(x: string, y: string, rest: seq<string>)
    ensures [x] + ([y] + rest) == [x, y] + rest
  {
  }

  /** Exact: the partition is the split by role, and the roles are determined by the
      elements alone. */
  lemma PartitionExact(d: Decoder, args: seq<string>, roles: seq<Role>)
    requires Classified(d, args, roles)
    ensures Partition(d, args) == Parts(Selected(args, roles, false), Selected(args, roles, true))
    ensures Calls(d, args) == Served(d, args, roles)
  {
    var r := PartitionByRole(d, args);
    RolesAreUnique(d, args, r, roles, |args|);
    assert r == r[..|args|] == roles[..|args|] == roles;
  }
}
