/** The words of a rule as a list of options, and what the matchers read off them. */
module IptOptions {
  import opened Text
  import opened IptDecide

  /** One option as `iptables -S` prints it: a flag, its value, and a second value
      where it takes two; negated, after a `!`. */
  datatype Opt = Opt(negated: bool, flag: string, value: string, more: seq<string>)

  const BANG := "!"

  predicate IsFlag(w: string) {
    w != "" && w[0] == '-'
  }

  predicate IsValue(w: string) {
    w != "" && w[0] != '-' && w != BANG
  }

  predicate OkOpt(o: Opt) {
    && IsFlag(o.flag) && IsValue(o.value) && |o.more| <= 1 && (forall w | w in o.more :: IsValue(w))
    && (o.more != [] ==> o.flag == "--tcp-flags" && !o.negated)
  }

  predicate OkOpts(opts: seq<Opt>) {
    forall o | o in opts :: OkOpt(o)
  }

  function OptWords(o: Opt): seq<string> {
    (if o.negated then [BANG] else []) + [o.flag, o.value] + o.more
  }

  function AllWords(opts: seq<Opt>): seq<string> {
    if opts == [] then [] else OptWords(opts[0]) + AllWords(opts[1..])
  }

  lemma BangIsNoFlag()
    ensures !IsFlag(BANG) && !IsValue(BANG)
  {}

  lemma {:induction false} WordsOfConcat(a: seq<Opt>, b: seq<Opt>)
    ensures AllWords(a + b) == AllWords(a) + AllWords(b)
  {
    if a == [] {
      assert a + b == b;
    } else {
      assert (a + b)[1..] == a[1..] + b;
      WordsOfConcat(a[1..], b);
    }
  }

  lemma TailIsOk(opts: seq<Opt>)
    requires opts != [] && OkOpts(opts)
    ensures OkOpt(opts[0]) && OkOpts(opts[1..])
  {
    assert opts[0] in opts && forall o | o in opts[1..] :: o in opts;
  }

  lemma OptIn(opts: seq<Opt>, o: Opt)
    requires opts != []
    ensures o in opts <==> o == opts[0] || o in opts[1..]
  {
    assert opts == [opts[0]] + opts[1..];
  }

  /** A word of an option: `!`, its flag, or a value. */
  lemma WordOfOpt(o: Opt, w: string)
    requires OkOpt(o)
    ensures w in OptWords(o) <==> (w == BANG && o.negated) || w == o.flag || w == o.value || w in o.more
  {
    var f := OptWords(o);
    if o.negated {
      assert f[0] == BANG && f[1] == o.flag && f[2] == o.value;
    } else {
      assert f[0] == o.flag && f[1] == o.value;
    }
    assert forall w | w in o.more :: w in f;
  }

  // ------------------------------------------------------ flags and their values

  /** A flag is a word exactly where an option has it, and `!` where one is negated. */
  lemma {:induction false} FlagInWords(opts: seq<Opt>, flag: string)
    requires OkOpts(opts) && IsFlag(flag)
    ensures flag in AllWords(opts) <==> exists o | o in opts :: o.flag == flag
    ensures BANG in AllWords(opts) <==> exists o | o in opts :: o.negated
  {
    if opts != [] {
      TailIsOk(opts);
      FlagInWords(opts[1..], flag);
      WordOfOpt(opts[0], flag);
      WordOfOpt(opts[0], BANG);
      BangIsNoFlag();
      assert forall o :: o in opts <==> o == opts[0] || o in opts[1..] by {
        assert opts == [opts[0]] + opts[1..];
      }
    }
  }

  /** The value of the first option with the flag, unless it is negated. */
  function Value(opts: seq<Opt>, flag: string): string {
    if opts == [] then ""
    else if opts[0].flag == flag then if opts[0].negated then "" else opts[0].value
    else Value(opts[1..], flag)
  }

  predicate EndsInValue(prefix: seq<string>) {
    prefix != [] && IsValue(prefix[|prefix| - 1])
  }

  lemma FirstFlag(prefix: seq<string>, o: Opt, rest: seq<string>)
    requires OkOpt(o) && EndsInValue(prefix) && o.flag !in prefix
    ensures Flag(prefix + OptWords(o) + rest, o.flag) == if o.negated then "" else o.value
  {
    var f := prefix + OptWords(o) + rest;
    var i := |prefix| + (if o.negated then 1 else 0);
    BangIsNoFlag();
    assert f[i] == o.flag && f[i + 1] == o.value;
    assert o.negated ==> f[i - 1] == BANG;
    assert !o.negated ==> f[i - 1] == prefix[|prefix| - 1];
    IndexIs(f, o.flag, i);
  }

  lemma PastOpt(prefix: seq<string>, o: Opt, flag: string)
    requires OkOpt(o) && EndsInValue(prefix) && IsFlag(flag) && flag !in prefix && o.flag != flag
    ensures EndsInValue(prefix + OptWords(o)) && flag !in prefix + OptWords(o)
  {
    BangIsNoFlag();
    WordOfOpt(o, flag);
    var f := prefix + OptWords(o);
    if o.more != [] {
      assert |o.more| == 1 && o.more[0] in o.more && f[|f| - 1] == o.more[0];
    } else {
      assert f[|f| - 1] == o.value;
    }
  }

  /** The reader's Flag is the option's value. */
  lemma {:induction false} FlagOfWords(prefix: seq<string>, opts: seq<Opt>, flag: string)
    requires OkOpts(opts) && EndsInValue(prefix) && IsFlag(flag) && flag !in prefix
    ensures Flag(prefix + AllWords(opts), flag) == Value(opts, flag)
    decreases |opts|
  {
    if opts == [] {
      assert prefix + [] == prefix;
      assert IndexOf(prefix, flag) == |prefix|;
    } else {
      TailIsOk(opts);
      var rest := AllWords(opts[1..]);
      assert prefix + AllWords(opts) == prefix + OptWords(opts[0]) + rest;
      if opts[0].flag == flag {
        FirstFlag(prefix, opts[0], rest);
      } else {
        PastOpt(prefix, opts[0], flag);
        FlagOfWords(prefix + OptWords(opts[0]), opts[1..], flag);
      }
    }
  }

  lemma {:induction false} ValueIs(opts: seq<Opt>, o: Opt)
    requires o in opts && forall p | p in opts && p.flag == o.flag :: p == o
    ensures Value(opts, o.flag) == if o.negated then "" else o.value
  {
    OptIn(opts, o);
    if opts[0].flag != o.flag {
      assert forall p | p in opts[1..] :: p in opts;
      ValueIs(opts[1..], o);
    } else {
      assert opts[0] in opts;
    }
  }

  lemma {:induction false} ValueIsNone(opts: seq<Opt>, flag: string)
    requires forall o | o in opts :: o.flag != flag
    ensures Value(opts, flag) == ""
  {
    if opts != [] {
      assert opts[0] in opts && forall o | o in opts[1..] :: o in opts;
      ValueIsNone(opts[1..], flag);
    }
  }

  // ------------------------------------------------------------------ loopback

  /** An option that scopes its rule to loopback. */
  predicate ScopesLoopback(o: Opt) {
    !o.negated && LoopbackScope(o.flag, o.value)
  }

  lemma LoopbackNeedsFlag(flag: string, value: string)
    requires LoopbackScope(flag, value)
    ensures IsFlag(flag)
  {}

  /** No scope spans two parts when the first ends in a value. */
  lemma LoopbackOfConcat(a: seq<string>, b: seq<string>)
    requires EndsInValue(a)
    ensures Loopback(a + b) <==> Loopback(a) || Loopback(b)
  {
    var f, n := a + b, |a|;
    if i: nat :| i < |f| - 1 && LoopbackAt(f, i) {
      LoopbackNeedsFlag(f[i], f[i + 1]);
      if i < n {
        LoopbackInFront(a, b, i);
      } else {
        LoopbackInBack(a, b, i - n);
      }
    }
    if i: nat :| i < |a| - 1 && LoopbackAt(a, i) {
      LoopbackNeedsFlag(a[i], a[i + 1]);
      LoopbackInFront(a, b, i);
    }
    if i: nat :| i < |b| - 1 && LoopbackAt(b, i) {
      LoopbackInBack(a, b, i);
      assert LoopbackAt(f, n + i);
    }
  }

  lemma LoopbackInFront(a: seq<string>, b: seq<string>, i: nat)
    requires EndsInValue(a) && i < |a| && i < |a + b| - 1 && IsFlag(a[i])
    ensures i < |a| - 1 && LoopbackAt(a, i) == LoopbackAt(a + b, i)
  {
    var f := a + b;
    assert f[i] == a[i] && i != |a| - 1;
    assert f[i + 1] == a[i + 1] && (i > 0 ==> f[i - 1] == a[i - 1]);
  }

  lemma LoopbackInBack(a: seq<string>, b: seq<string>, i: nat)
    requires EndsInValue(a) && i < |b| - 1
    ensures LoopbackAt(b, i) == LoopbackAt(a + b, |a| + i)
  {
    var f, n := a + b, |a|;
    assert f[n + i] == b[i] && f[n + i + 1] == b[i + 1];
    assert f[n + i - 1] == if i == 0 then a[n - 1] else b[i - 1];
  }

  lemma LoopbackOfOpt(o: Opt)
    requires OkOpt(o)
    ensures Loopback(OptWords(o)) <==> ScopesLoopback(o)
    ensures EndsInValue(OptWords(o))
  {
    var f := OptWords(o);
    BangIsNoFlag();
    if o.more != [] {
      assert |o.more| == 1 && o.more[0] in o.more;
    }
    if i: nat :| i < |f| - 1 && LoopbackAt(f, i) {
      LoopbackNeedsFlag(f[i], f[i + 1]);
    }
    if ScopesLoopback(o) {
      assert LoopbackAt(f, 0);
    }
  }

  lemma {:induction false} LoopbackOfWords(opts: seq<Opt>)
    requires OkOpts(opts)
    ensures Loopback(AllWords(opts)) <==> exists o | o in opts :: ScopesLoopback(o)
  {
    if opts != [] {
      TailIsOk(opts);
      LoopbackOfOpt(opts[0]);
      LoopbackOfWords(opts[1..]);
      LoopbackOfConcat(OptWords(opts[0]), AllWords(opts[1..]));
      assert forall o :: o in opts <==> o == opts[0] || o in opts[1..] by {
        assert opts == [opts[0]] + opts[1..];
      }
    }
  }

  // --------------------------------------------------------- a flag and its value

  /** The flag stands right before the value. */
  predicate PairAt(f: seq<string>, i: nat, flag: string, value: string) {
    i + 1 < |f| && f[i] == flag && f[i + 1] == value
  }

  predicate HasPair(f: seq<string>, flag: string, value: string) {
    exists i: nat | i < |f| :: PairAt(f, i, flag, value)
  }

  lemma PairInConcat(a: seq<string>, b: seq<string>, flag: string, value: string)
    requires EndsInValue(a) && IsFlag(flag)
    ensures HasPair(a + b, flag, value) <==> HasPair(a, flag, value) || HasPair(b, flag, value)
  {
    var f, n := a + b, |a|;
    if i: nat :| PairAt(f, i, flag, value) {
      if i < n {
        assert i != n - 1;
        assert PairAt(a, i, flag, value);
      } else {
        assert PairAt(b, i - n, flag, value);
      }
    }
    if i: nat :| PairAt(a, i, flag, value) {
      assert PairAt(f, i, flag, value);
    }
    if i: nat :| PairAt(b, i, flag, value) {
      assert PairAt(f, n + i, flag, value);
    }
  }

  lemma PairOfOpt(o: Opt, flag: string, value: string)
    requires OkOpt(o) && IsFlag(flag)
    ensures HasPair(OptWords(o), flag, value) <==> o.flag == flag && o.value == value
  {
    var f := OptWords(o);
    BangIsNoFlag();
    if o.flag == flag && o.value == value {
      assert PairAt(f, if o.negated then 1 else 0, flag, value);
    }
  }

  /** A flag stands before a value exactly where an option has both. */
  lemma {:induction false} PairOfWords(opts: seq<Opt>, flag: string, value: string)
    requires OkOpts(opts) && IsFlag(flag)
    ensures HasPair(AllWords(opts), flag, value) <==> exists o | o in opts :: o.flag == flag && o.value == value
  {
    if opts != [] {
      TailIsOk(opts);
      LoopbackOfOpt(opts[0]);
      PairOfOpt(opts[0], flag, value);
      PairOfWords(opts[1..], flag, value);
      PairInConcat(OptWords(opts[0]), AllWords(opts[1..]), flag, value);
      assert forall o :: o in opts <==> o == opts[0] || o in opts[1..] by {
        assert opts == [opts[0]] + opts[1..];
      }
    }
  }

  // ------------------------------------------------------ rules without a port

  /** An option that keeps a rule open to every TCP port. */
  predicate Harmless(o: Opt) {
    if o.negated then LoopbackScope(o.flag, o.value)
    else
      || o.flag in {"-j", "--reject-with", "--comment", "-i", "-s", "-d"}
      || (o.flag == "-p" && o.value == "tcp")
      || (o.flag == "-m" && (o.value == "tcp" || o.value == "comment"))
      || (o.flag == "--tcp-flags" && o.value == "FIN,SYN,RST,ACK" && o.more == ["SYN"])
  }

  lemma TokenOfOpt(o: Opt, rest: seq<string>)
    requires OkOpt(o) && !o.negated && o.flag != "--tcp-flags"
    ensures PortlessToken(OptWords(o) + rest) == if Harmless(o) then 2 else 0
  {
    var f := OptWords(o) + rest;
    assert f[0] == o.flag && f[1] == o.value;
  }

  lemma TokenOfNegated(o: Opt, rest: seq<string>)
    requires OkOpt(o) && o.negated
    ensures PortlessToken(OptWords(o) + rest) == if Harmless(o) then 3 else 0
  {
    var f := OptWords(o) + rest;
    assert f[0] == BANG && f[1] == o.flag && f[2] == o.value;
  }

  /** iptables prints the two values of --tcp-flags after it. */
  predicate FlagsWhole(o: Opt) {
    o.flag == "--tcp-flags" && !o.negated ==> |o.more| == 1
  }

  lemma TokenOfFlags(o: Opt, rest: seq<string>)
    requires OkOpt(o) && !o.negated && o.flag == "--tcp-flags" && FlagsWhole(o)
    ensures PortlessToken(OptWords(o) + rest) == if Harmless(o) then 3 else 0
  {
    var f := OptWords(o) + rest;
    assert f[0] == o.flag && f[1] == o.value && f[2] == o.more[0];
  }

  lemma TokenIsOpt(o: Opt, rest: seq<string>)
    requires OkOpt(o) && FlagsWhole(o)
    ensures PortlessToken(OptWords(o) + rest) == if Harmless(o) then |OptWords(o)| else 0
  {
    if o.negated {
      TokenOfNegated(o, rest);
    } else if o.flag == "--tcp-flags" {
      TokenOfFlags(o, rest);
    } else {
      TokenOfOpt(o, rest);
    }
  }

  lemma {:induction false} PortlessOfWords(opts: seq<Opt>)
    requires OkOpts(opts) && forall o | o in opts :: FlagsWhole(o)
    ensures PortlessCovers(AllWords(opts)) <==> forall o | o in opts :: Harmless(o)
  {
    if opts != [] {
      TailIsOk(opts);
      var words, rest := OptWords(opts[0]), AllWords(opts[1..]);
      assert opts[0] in opts && forall o | o in opts[1..] :: o in opts;
      TokenIsOpt(opts[0], rest);
      PortlessOfWords(opts[1..]);
      assert (words + rest)[|words|..] == rest;
      assert forall o :: o in opts <==> o == opts[0] || o in opts[1..] by {
        assert opts == [opts[0]] + opts[1..];
      }
    }
  }
}
