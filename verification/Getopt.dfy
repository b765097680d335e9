/** The element-advancing part of _getopt_internal in PERMUTE order. What an option
    element means is reduced to two functions of its text: how many calls it
    serves, and whether it takes the next element as its argument. */
module Getopt {
  import opened Permute

  datatype Decoder = Decoder(letters: string -> nat, takesNext: string -> bool)

  predicate NonOption(arg: string) {
    arg == "" || arg[0] != '-' || |arg| == 1
  }

  /** How many elements an option at the front of args uses. */
  function Uses(d: Decoder, args: seq<string>): (k: nat)
    requires args != []
    ensures 1 <= k <= |args|
  {
    if d.takesNext(args[0]) && |args| > 1 then 2 else 1
  }

  datatype Parts = Parts(options: seq<string>, operands: seq<string>)

  /** What a scan of the argument list should produce: the options with their
      arguments up to and including "--", and everything else, each in order. */
  function Partition(d: Decoder, args: seq<string>): Parts
    decreases |args|
  {
    if args == [] then Parts([], [])
    else if args[0] == "--" then Parts(["--"], args[1..])
    else if NonOption(args[0]) then
      var p := Partition(d, args[1..]);
      Parts(p.options, [args[0]] + p.operands)
    else
      var k := Uses(d, args);
      var p := Partition(d, args[k..]);
      Parts(args[..k] + p.options, p.operands)
  }

  /** How many calls serve the options: one for each option character, and one for an
      element without any. */
  function Calls(d: Decoder, args: seq<string>): nat
    decreases |args|
  {
    if args == [] || args[0] == "--" then 0
    else if NonOption(args[0]) then Calls(d, args[1..])
    else Letters(d, args[0]) + Calls(d, args[Uses(d, args)..])
  }

  function Letters(d: Decoder, arg: string): (n: nat)
    ensures n >= 1
  {
    if d.letters(arg) < 1 then 1 else d.letters(arg)
  }

  /** args is a merge of a and b: a stable permutation puts a before b. */
  ghost predicate Merges(args: seq<string>, a: seq<string>, b: seq<string>)
    decreases |args|
  {
    if args == [] then a == [] && b == []
    else
      || (a != [] && a[0] == args[0] && Merges(args[1..], a[1..], b))
      || (b != [] && b[0] == args[0] && Merges(args[1..], a, b[1..]))
  }

  lemma {:induction false} MergesRight(args: seq<string>)
    ensures Merges(args, [], args)
    decreases |args|
  {
    if args != [] {
      MergesRight(args[1..]);
    }
  }

  /** Nothing is lost, invented or reordered within its part. */
  lemma {:induction false} PartitionIsStable(d: Decoder, args: seq<string>)
    ensures Merges(args, Partition(d, args).options, Partition(d, args).operands)
    decreases |args|
  {
    if args == [] {
    } else if args[0] == "--" {
      MergesRight(args[1..]);
      assert ["--"][1..] == [];
    } else if NonOption(args[0]) {
      PartitionIsStable(d, args[1..]);
      var p := Partition(d, args[1..]);
      assert ([args[0]] + p.operands)[1..] == p.operands;
    } else {
      var k := Uses(d, args);
      PartitionIsStable(d, args[k..]);
      var p := Partition(d, args[k..]);
      assert (args[..k] + p.options)[1..] == args[1..k] + p.options;
      if k == 2 {
        assert args[1..][1..] == args[2..];
        assert (args[1..2] + p.options)[1..] == p.options;
        assert Merges(args[1..], args[1..2] + p.options, p.operands);
      } else {
        assert args[1..1] + p.options == p.options;
      }
    }
  }

  lemma PartitionOption(d: Decoder, args: seq<string>)
    requires args != [] && args[0] != "--" && !NonOption(args[0])
    ensures var k, p := Uses(d, args), Partition(d, args[Uses(d, args)..]);
      Partition(d, args) == Parts(args[..k] + p.options, p.operands)
  {
  }

  lemma PartitionOperand(d: Decoder, args: seq<string>)
    requires args != [] && NonOption(args[0])
    ensures var p := Partition(d, args[1..]);
      Partition(d, args) == Parts(p.options, [args[0]] + p.operands)
  {
  }

  lemma CallsStep(d: Decoder, args: seq<string>)
    ensures args == [] || args[0] == "--" ==> Calls(d, args) == 0
    ensures args != [] && NonOption(args[0]) ==> Calls(d, args) == Calls(d, args[1..])
    ensures args != [] && args[0] != "--" && !NonOption(args[0]) ==>
      Calls(d, args) == Letters(d, args[0]) + Calls(d, args[Uses(d, args)..])
  {
  }

  lemma PartitionTerminator(d: Decoder, args: seq<string>)
    requires args != [] && args[0] == "--"
    ensures Partition(d, args) == Parts(["--"], args[1..])
    ensures Partition(d, []) == Parts([], [])
  {
  }

  lemma SplitAt(s: seq<string>, i: nat, j: nat)
    requires i <= j <= |s|
    ensures s[i..] == s[i..j] + s[j..]
  {
  }

  lemma Regroup(a: seq<string>, b: seq<string>, c: seq<string>, e: seq<string>)
    ensures a + b + (c + e) == a + (b + c) + e
  {
  }

  class Scanner {
    const decoder: Decoder
    const argv: array<string>
    var optind: nat
    var firstNonopt: nat
    var lastNonopt: nat
    var pending: nat        // option characters left in the current element

    constructor (decoder: Decoder, argv: array<string>)
      requires argv.Length >= 1
      ensures this.decoder == decoder && this.argv == argv
      ensures Scanning(argv[1..])
    {
      this.decoder := decoder;
      this.argv := argv;
      optind, firstNonopt, lastNonopt, pending := 1, 1, 1, 0;
      new;
      assert argv[1..1] == [];
    }

    /** Between calls: what has been scanned of the original arguments stands in
        front of optind, in two blocks of options around one of operands. */
    ghost predicate Scanning(args: seq<string>)
      reads this, argv
    {
      && 1 <= firstNonopt <= lastNonopt <= optind <= argv.Length
      && (pending > 0 ==> AtOption())
      && var rest := Partition(decoder, argv[optind..]);
         Partition(decoder, args) == Parts(
           argv[1..firstNonopt] + argv[lastNonopt..optind] + rest.options,
           argv[firstNonopt..lastNonopt] + rest.operands)
    }

    ghost predicate AtOption()
      reads this, argv
    {
      optind < argv.Length && !NonOption(argv[optind]) && argv[optind] != "--"
    }

    /** The calls still to come before the one that returns -1. */
    ghost function Remaining(): nat
      reads this, argv
    {
      if optind > argv.Length then 0
      else if pending > 0 && optind < argv.Length then
        pending + Calls(decoder, argv[optind + Uses(decoder, argv[optind..])..])
      else Calls(decoder, argv[optind..])
    }

    /** All options found so far stand in front of all operands found so far. */
    ghost predicate Gathered(args: seq<string>)
      reads this, argv
    {
      && 1 <= firstNonopt <= optind <= argv.Length
      && var rest := Partition(decoder, argv[optind..]);
         Partition(decoder, args)
           == Parts(argv[1..firstNonopt] + rest.options, argv[firstNonopt..optind] + rest.operands)
    }

    /** The promise at the end of the scan. */
    ghost predicate Done(args: seq<string>)
      reads this, argv
    {
      var p := Partition(decoder, args);
      && argv.Length >= 1
      && argv[1..] == p.options + p.operands
      && optind == 1 + |p.options|
    }

    /** exchange, with the records it updates. */
    method ExchangeBlocks(ghost args: seq<string>)
      requires Scanning(args) && pending == 0
      modifies this`firstNonopt, this`lastNonopt, argv
      ensures Gathered(args) && lastNonopt == optind && argv[0] == old(argv[0])
      ensures argv[optind..] == old(argv[optind..])
    {
      hide Rotated, Partition;
      ghost var was := argv[..];
      Exchange(argv, firstNonopt, lastNonopt, optind);
      RotatedParts(was, firstNonopt, lastNonopt, optind);
      assert argv[optind..] == was[optind..];
      firstNonopt := firstNonopt + (optind - lastNonopt);
      lastNonopt := optind;
    }

    /** Brings the operands skipped so far behind the options scanned since. */
    method GatherSkipped(ghost args: seq<string>)
      requires Scanning(args) && pending == 0
      modifies this`firstNonopt, this`lastNonopt, argv
      ensures Gathered(args) && argv[0] == old(argv[0])
      ensures argv[optind..] == old(argv[optind..])
    {
      hide Partition, NonOption, Uses;
      if firstNonopt != lastNonopt && lastNonopt != optind {
        ExchangeBlocks(args);
      } else if lastNonopt != optind {
        assert argv[1..optind] == argv[1..firstNonopt] + argv[lastNonopt..optind];
        assert argv[firstNonopt..lastNonopt] == argv[optind..optind] == [];
        firstNonopt := optind;
      } else {
        assert argv[1..firstNonopt] + argv[lastNonopt..optind] == argv[1..firstNonopt];
      }
    }

    /** Skips operands in front of the next option. */
    method SkipOperands(ghost args: seq<string>)
      requires Gathered(args) && pending == 0
      modifies this`optind, this`lastNonopt
      ensures Gathered(args) && lastNonopt == optind
      ensures old(optind) <= optind
      ensures optind < argv.Length ==> !NonOption(argv[optind])
      ensures Calls(decoder, argv[optind..]) == old(Calls(decoder, argv[optind..]))
    {
      hide Partition, Calls;
      while optind < argv.Length && NonOption(argv[optind])
        invariant Gathered(args)
        invariant old(optind) <= optind
        invariant Calls(decoder, argv[optind..]) == old(Calls(decoder, argv[optind..]))
      {
        ghost var skipped, rest := argv[firstNonopt..optind], argv[optind..];
        PartitionOperand(decoder, rest);
        CallsStep(decoder, rest);
        assert rest[1..] == argv[optind + 1..];
        assert argv[firstNonopt..optind + 1] == skipped + [argv[optind]];
        Regroup([], skipped, [argv[optind]], Partition(decoder, rest[1..]).operands);
        optind := optind + 1;
      }
      lastNonopt := optind;
    }

    /** All options stand in front of all operands, and nothing is left to scan. */
    ghost predicate Separated(args: seq<string>)
      reads this, argv
    {
      && 1 <= firstNonopt <= argv.Length
      && Partition(decoder, args) == Parts(argv[1..firstNonopt], argv[firstNonopt..])
    }

    /** The element "--" is passed like an option without effect: it moves in front of
        the operands skipped so far. Everything behind it is an operand. */
    method PassTerminator(ghost args: seq<string>)
      requires Gathered(args) && lastNonopt == optind && pending == 0
      requires optind < argv.Length && argv[optind] == "--"
      modifies this`optind, this`firstNonopt, this`lastNonopt, argv
      ensures Separated(args) && optind == lastNonopt == argv.Length && argv[0] == old(argv[0])
    {
      hide Partition, NonOption, Rotated;
      ghost var at, was, f := optind, argv[..], firstNonopt;
      PartitionTerminator(decoder, argv[at..]);
      assert argv[at..][1..] == was[at + 1..];
      optind := optind + 1;
      if firstNonopt != lastNonopt && lastNonopt != optind {
        Exchange(argv, firstNonopt, lastNonopt, optind);
        RotatedParts(was, f, at, optind);
        firstNonopt := firstNonopt + (optind - lastNonopt);
        assert was[at..at + 1] == ["--"];
      } else if firstNonopt == lastNonopt {
        firstNonopt := optind;
        assert argv[1..optind] == was[1..f] + ["--"] && argv[optind..optind] == was[f..at];
      }
      assert argv[optind..] == was[at + 1..];
      SplitAt(argv[..], firstNonopt, optind);
      lastNonopt := argv.Length;
      optind := argv.Length;
    }

    /** The scan has reached the end without a terminator. */
    lemma EndReached(args: seq<string>)
      requires Gathered(args) && optind == argv.Length
      ensures Separated(args)
    {
      assert argv[argv.Length..] == [];
      SplitAt(argv[..], firstNonopt, optind);
    }

    /** Stops at the operands that were skipped. */
    method Finish(ghost args: seq<string>)
      requires Separated(args) && optind == lastNonopt == argv.Length
      modifies this`optind
      ensures Done(args)
    {
      hide Partition;
      assert argv[1..] == argv[1..firstNonopt] + argv[firstNonopt..];
      if firstNonopt != lastNonopt {
        optind := firstNonopt;
      }
    }

    /** The element at optind and its argument are passed. */
    method PassOption(ghost args: seq<string>)
      requires Scanning(args) && pending == 0 && AtOption()
      modifies this`optind
      ensures Scanning(args) && optind == old(optind) + Uses(decoder, argv[old(optind)..])
    {
      hide Partition, NonOption;
      ghost var rest := argv[optind..];
      ghost var k, at := Uses(decoder, rest), optind;
      PartitionOption(decoder, rest);
      Regroup(argv[1..firstNonopt], argv[lastNonopt..at], rest[..k], Partition(decoder, rest[k..]).options);
      var element := argv[optind];
      optind := optind + 1;
      if decoder.takesNext(element) && optind < argv.Length {
        optind := optind + 1;
      }
      assert optind == at + k && rest[k..] == argv[optind..];
      assert argv[lastNonopt..optind] == argv[lastNonopt..at] + rest[..k];
    }

    /** One option character is decoded; with the last one the element and its
        argument are passed. */
    method Decode(ghost args: seq<string>)
      requires Scanning(args) && pending > 0
      modifies this`optind, this`pending
      ensures Scanning(args)
      ensures if old(pending) > 1 then pending == old(pending) - 1 && optind == old(optind)
              else pending == 0 && optind > old(optind)
      ensures Remaining() == old(Remaining()) - 1
    {
      hide Partition, NonOption, Calls, Uses;
      pending := pending - 1;
      if pending == 0 {
        PassOption(args);
      }
    }

    /** The part of a call that looks for the next option element. */
    method FindOption(ghost args: seq<string>) returns (found: bool)
      requires Scanning(args) && pending == 0
      modifies this`optind, this`firstNonopt, this`lastNonopt, this`pending, argv
      ensures argv[0] == old(argv[0])
      ensures !found ==> Done(args) && old(Remaining()) == 0
      ensures found ==> Scanning(args) && pending > 0 && optind >= old(optind) && Remaining() == old(Remaining())
    {
      hide Partition, NonOption, Uses, Calls;
      GatherSkipped(args);
      SkipOperands(args);
      CallsStep(decoder, argv[optind..]);
      if optind != argv.Length && argv[optind] == "--" {
        PassTerminator(args);
      } else if optind == argv.Length {
        EndReached(args);
      }
      if optind == argv.Length {
        Finish(args);
        return false;
      }
      assert argv[1..firstNonopt] + argv[lastNonopt..optind] == argv[1..firstNonopt];
      pending := if decoder.letters(argv[optind]) < 1 then 1 else decoder.letters(argv[optind]);
      assert argv[optind..][Uses(decoder, argv[optind..])..] == argv[optind + Uses(decoder, argv[optind..])..];
      return true;
    }

    /** One call of getopt. It returns -1 when the scan is over, after as many calls as
        the options have characters. */
    method Next(ghost args: seq<string>) returns (r: int)
      requires Scanning(args)
      modifies this`optind, this`firstNonopt, this`lastNonopt, this`pending, argv
      ensures argv[0] == old(argv[0])
      ensures r == -1 || r == 0
      ensures r == -1 ==> Done(args) && old(Remaining()) == 0
      ensures r == 0 ==> Scanning(args) && Remaining() == old(Remaining()) - 1
      ensures r == 0 ==>
        || old(optind) < optind
        || (old(optind) == optind && pending > 0 && (old(pending) == 0 || pending < old(pending)))
    {
      hide Partition, NonOption, Uses, Calls;
      if pending == 0 {
        var found := FindOption(args);
        if !found {
          return -1;
        }
      }
      Decode(args);
      return 0;
    }

    /** The caller's loop: getopt until it returns -1. The command name stays, the
        options come first in their order, and from optind on stand the operands in
        theirs. */
    method ScanAll() returns (calls: nat)
      requires optind == firstNonopt == lastNonopt == 1 && pending == 0 && argv.Length >= 1
      modifies this`optind, this`firstNonopt, this`lastNonopt, this`pending, argv
      ensures argv[0] == old(argv[0])
      ensures var p := Partition(decoder, old(argv[1..]));
        argv[1..] == p.options + p.operands && optind == 1 + |p.options|
      ensures calls == Calls(decoder, old(argv[1..]))
    {
      hide Partition, Calls;
      ghost var args := argv[1..];
      assert argv[1..1] == [];
      var r := 0;
      calls := 0;
      while r != -1
        invariant r == -1 || r == 0
        invariant argv[0] == old(argv[0])
        invariant if r == -1 then Done(args) else Scanning(args)
        invariant Calls(decoder, args) == calls + if r == -1 then 0 else Remaining()
        decreases r, argv.Length - optind, pending == 0, pending
      {
        r := Next(args);
        calls := if r == -1 then calls else calls + 1;
      }
    }
  }

  lemma RotatedParts(s: seq<string>, f: nat, l: nat, o: nat)
    requires 1 <= f <= l <= o <= |s|
    ensures var r := Rotated(s, f, l, o); var f' := f + (o - l);
      && r[1..f'] == s[1..f] + s[l..o]
      && r[f'..o] == s[f..l]
      && r[o..] == s[o..]
      && r[0] == s[0]
  {
  }
}
