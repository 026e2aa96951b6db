/** The question behind the domain filter, and the answer its fast paths give. */
module Filter {
  import opened Names
  import opened Bloom
  import opened Trie

  /** What the filter has been told: `inserted` are the rules in the trie, `probed` the items in the Bloom filter. */
  datatype Rules = Rules(enabled: bool, whitelist: set<string>, inserted: set<string>, probed: set<string>) {

    /** A rule whitelisted at the moment it is added is never inserted. */
    function AddRule(d: string): Rules {
      var clean := Normalise(d);
      if clean == "" || clean in whitelist then this
      else this.(inserted := inserted + {clean}, probed := probed + {clean})
    }

    function AddRules(ds: seq<string>): Rules {
      if ds == [] then this else AddRules(ds[..|ds| - 1]).AddRule(ds[|ds| - 1])
    }

    /** A built-in rule is inserted unconditionally, and all its label suffixes are probed. */
    function AddCore(d: string): Rules {
      var clean := Normalise(d);
      if clean == "" then this
      else this.(inserted := inserted + {clean}, probed := probed + {clean} + Suffixes(clean, |Split(clean)|))
    }

    function AddCores(ds: seq<string>): Rules {
      if ds == [] then this else AddCores(ds[..|ds| - 1]).AddCore(ds[|ds| - 1])
    }

    function AddWhitelist(ds: seq<string>): Rules {
      this.(whitelist := whitelist + Added({}, ds))
    }

    function RemoveWhitelist(d: string): Rules {
      this.(whitelist := whitelist - {Normalise(d)})
    }

    /** Neither switched off, nor nameless, nor exempted. */
    predicate Checks(clean: string): (c: bool)
      ensures c <==> enabled && clean != "" && forall w | w in whitelist :: !Under(clean, w)
    {
      enabled && clean != "" && !exists w :: w in whitelist && Under(clean, w)
    }

    /** The simple question: is the name, or a domain above it, a rule? */
    predicate Blocks(d: string) {
      var clean := Normalise(d);
      Checks(clean) && exists n :: n in inserted && Under(clean, n)
    }

    /** Some suffix of at least two labels might be in the Bloom filter. */
    ghost predicate Candidate(shape: Shape, clean: string)
      requires shape.Sound()
    {
      MightHold(probed, shape, clean)
    }

    /** The answer of the Bloom and trie path. */
    ghost predicate Answer(shape: Shape, clean: string)
      requires shape.Sound()
    {
      Candidate(shape, clean) && Matches(PathsOf(inserted), Path(clean))
    }

    /** The answer the filter gives. */
    ghost predicate Verdict(shape: Shape, d: string)
      requires shape.Sound()
    {
      Checks(Normalise(d)) && Answer(shape, Normalise(d))
    }

    /** Every rule was normalised and went into both structures. */
    predicate Coherent() {
      inserted <= probed && forall n | n in inserted :: n != ""
    }

    /** The name has a suffix of two or more labels that was really added to the Bloom filter. */
    predicate Probed(clean: string) {
      exists i: nat :: i < |Split(clean)| - 1 && Join(Split(clean)[i..]) in probed
    }
  }

  ghost predicate MightHold(probed: set<string>, shape: Shape, clean: string)
    requires shape.Sound()
  {
    exists i: nat :: i < |Split(clean)| - 1 && shape.Reports(probed, Join(Split(clean)[i..]))
  }

  /** `".".join(labels[i:])` for every `i` below `k`. */
  function Suffixes(clean: string, k: nat): set<string>
    requires k <= |Split(clean)|
  {
    if k == 0 then {} else Suffixes(clean, k - 1) + {Join(Split(clean)[k - 1..])}
  }

  /** The names a call adds: normalised, not empty, and not exempted at that moment. */
  function Added(whitelist: set<string>, ds: seq<string>): set<string> {
    if ds == [] then {}
    else
      var clean := Normalise(ds[|ds| - 1]);
      Added(whitelist, ds[..|ds| - 1]) + (if clean == "" || clean in whitelist then {} else {clean})
  }

  predicate Fixed(name: string) {
    Normalise(name) == name
  }

  /** Without any assumption: what the answer means, with the trie's second normalisation spelled out. */
  lemma AnswerMeaning(f: Rules, shape: Shape, clean: string)
    requires shape.Sound()
    ensures f.Answer(shape, clean)
       <==> f.Candidate(shape, clean) && exists n :: n in f.inserted && Under(Normalise(clean), Normalise(n))
  {
    MatchesUnder(f.inserted, clean);
  }

  /** On fixed names, nothing is blocked that should not be, and what should be is unless the Bloom probe misses it. */
  lemma VerdictExact(f: Rules, shape: Shape, d: string)
    requires shape.Sound() && Fixed(Normalise(d)) && forall n | n in f.inserted :: Fixed(n)
    ensures f.Verdict(shape, d) <==> f.Blocks(d) && f.Candidate(shape, Normalise(d))
  {
    AnswerMeaning(f, shape, Normalise(d));
  }

  /** A name under a rule of at least two labels has that rule among the suffixes the probe tries. */
  lemma DottedRuleProbed(f: Rules, clean: string, n: string)
    requires f.Coherent() && n in f.inserted && Under(clean, n) && |Split(n)| >= 2
    ensures f.Probed(clean)
  {
    UnderSuffix(n, clean);
    JoinSplit(n);
    var i := |Split(clean)| - |Split(n)|;
    assert Join(Split(clean)[i..]) == n;
  }

  lemma ProbedIsCandidate(f: Rules, shape: Shape, clean: string)
    requires shape.Sound() && f.Probed(clean)
    ensures f.Candidate(shape, clean)
  {
    var i: nat :| i < |Split(clean)| - 1 && Join(Split(clean)[i..]) in f.probed;
    NoFalseNegative(shape, f.probed, f.probed, Join(Split(clean)[i..]));
  }

  /** The refinement: with rules of at least two labels the verdict is the simple answer, for every hash function. */
  lemma FilterRefines(f: Rules, shape: Shape, d: string)
    requires shape.Sound() && f.Coherent() && Fixed(Normalise(d))
    requires forall n | n in f.inserted :: Fixed(n) && |Split(n)| >= 2
    ensures f.Verdict(shape, d)
       <==> && f.enabled && Normalise(d) != "" && (forall w | w in f.whitelist :: !Under(Normalise(d), w))
            && exists n :: n in f.inserted && Under(Normalise(d), n)
  {
    VerdictExact(f, shape, d);
    if f.Blocks(d) {
      var n :| n in f.inserted && Under(Normalise(d), n);
      DottedRuleProbed(f, Normalise(d), n);
      ProbedIsCandidate(f, shape, Normalise(d));
    }
  }

  /** A hash function that tells the probed items from everything else. */
  function Separating(probed: set<string>): Shape {
    Shape(s => if s in probed then 0 else 1, _ => 0, 8, 1)
  }

  lemma SeparatingReports(probed: set<string>, x: string)
    ensures Separating(probed).Reports(probed, x) ==> x in probed
  {
    var shape := Separating(probed);
    if shape.Reports(probed, x) {
      assert shape.Covers(probed, shape.Position(x, 0));
    }
  }

  /** Exactly when the verdict is right whatever the hash functions are: a blocked name must have a suffix
      of two or more labels that was added to the Bloom filter. A rule of one label alone does not suffice. */
  lemma RightForEveryHash(f: Rules, d: string)
    requires Fixed(Normalise(d)) && forall n | n in f.inserted :: Fixed(n)
    ensures (forall shape: Shape | shape.Sound() :: f.Verdict(shape, d) <==> f.Blocks(d))
       <==> (f.Blocks(d) ==> f.Probed(Normalise(d)))
  {
    var clean := Normalise(d);
    forall shape: Shape | shape.Sound() && (f.Blocks(d) ==> f.Probed(clean))
      ensures f.Verdict(shape, d) <==> f.Blocks(d)
    {
      VerdictExact(f, shape, d);
      if f.Blocks(d) {
        ProbedIsCandidate(f, shape, clean);
      }
    }
    if f.Blocks(d) && !f.Probed(clean) {
      var shape := Separating(f.probed);
      VerdictExact(f, shape, d);
      if f.Candidate(shape, clean) {
        var i: nat :| i < |Split(clean)| - 1 && shape.Reports(f.probed, Join(Split(clean)[i..]));
        SeparatingReports(f.probed, Join(Split(clean)[i..]));
      }
      assert f.Verdict(shape, d) != f.Blocks(d);
    }
  }

  /** A rule of a single label, such as "com", does not stop the names one label below it, such as "a.com":
      the probe never asks for the last label alone. */
  lemma SingleLabelRuleMissed(rule: string, label_: string)
    requires Plain(rule) && Plain(label_) && '.' !in rule && '.' !in label_
    ensures var f := Rules(true, {}, {}, {}).AddRule(rule);
            var name := label_ + "." + rule;
            f.Blocks(name) && exists shape: Shape :: shape.Sound() && !f.Verdict(shape, name)
  {
    OnlyRule(rule);
    NameBelow(rule, label_);
    Missed(rule, label_ + "." + rule);
  }

  lemma OnlyRule(rule: string)
    requires Plain(rule)
    ensures Fixed(rule) && Rules(true, {}, {}, {}).AddRule(rule) == Rules(true, {}, {rule}, {rule})
  {
    PlainFixed(rule);
  }

  lemma PlainBelow(rule: string, label_: string)
    requires Plain(rule) && Plain(label_)
    ensures Plain(label_ + "." + rule)
  {
    var name := label_ + "." + rule;
    assert name[|name| - 1] == rule[|rule| - 1];
    forall c | c in name ensures !IsSpace(c) && LowerChar(c) == c {
      assert c in label_ || c == '.' || c in rule;
    }
  }

  lemma NameBelow(rule: string, label_: string)
    requires Plain(rule) && Plain(label_) && '.' !in rule && '.' !in label_
    ensures var name := label_ + "." + rule;
            Fixed(name) && Under(name, rule) && |Split(name)| == 2
  {
    PlainBelow(rule, label_);
    PlainFixed(label_ + "." + rule);
    assert label_ + "." + rule == label_ + ("." + rule);
    SplitAppend(label_, rule);
    SplitDotless(label_);
    SplitDotless(rule);
  }

  lemma Missed(rule: string, name: string)
    requires Fixed(name) && Fixed(rule) && Under(name, rule) && |Split(name)| == 2 && name != rule
    ensures var f := Rules(true, {}, {rule}, {rule});
            f.Blocks(name) && exists shape: Shape :: shape.Sound() && !f.Verdict(shape, name)
  {
    var f := Rules(true, {}, {rule}, {rule});
    JoinSplit(name);
    assert Split(name)[0..] == Split(name);
    assert !f.Probed(name);
    RightForEveryHash(f, name);
  }

  // ---------- Every history ----------

  datatype Op = Add(rules: seq<string>) | Exempt(names: seq<string>) | Unexempt(name: string) | Toggle | Ask(domain: string)

  function Apply(f: Rules, op: Op): Rules {
    match op
    case Add(ds) => f.AddRules(ds)
    case Exempt(ds) => f.AddWhitelist(ds)
    case Unexempt(d) => f.RemoveWhitelist(d)
    case Toggle => f.(enabled := !f.enabled)
    case Ask(_) => f
  }

  function After(f: Rules, ops: seq<Op>): Rules {
    if ops == [] then f else Apply(After(f, ops[..|ops| - 1]), ops[|ops| - 1])
  }

  lemma {:induction false} AddedMeans(whitelist: set<string>, ds: seq<string>, n: string)
    ensures n in Added(whitelist, ds) <==> n != "" && n !in whitelist && exists d :: d in ds && Normalise(d) == n
  {
    if ds == [] {
    } else {
      var init, last := ds[..|ds| - 1], ds[|ds| - 1];
      assert ds == init + [last];
      AddedMeans(whitelist, init, n);
      assert last in ds && forall d | d in ds :: d in init || d == last;
    }
  }

  lemma {:induction false} AddRulesAdds(f: Rules, ds: seq<string>)
    ensures f.AddRules(ds) == f.(inserted := f.inserted + Added(f.whitelist, ds),
                                 probed := f.probed + Added(f.whitelist, ds))
  {
    if ds == [] {
    } else {
      AddRulesAdds(f, ds[..|ds| - 1]);
    }
  }

  /** One call in full: a rule is inserted afterwards if it was before, or if some name given is normalised to it and
      it is neither empty nor exempted. */
  lemma AddRulesMeans(f: Rules, ds: seq<string>)
    ensures f.AddRules(ds).whitelist == f.whitelist && f.AddRules(ds).enabled == f.enabled
    ensures forall n :: n in f.AddRules(ds).inserted
              <==> n in f.inserted || (n != "" && n !in f.whitelist && exists d :: d in ds && Normalise(d) == n)
  {
    AddRulesAdds(f, ds);
    forall n {
      AddedMeans(f.whitelist, ds, n);
    }
  }

  lemma AddWhitelistMeans(f: Rules, ds: seq<string>)
    ensures forall w :: w in f.AddWhitelist(ds).whitelist
              <==> w in f.whitelist || (w != "" && exists d :: d in ds && Normalise(d) == w)
  {
    forall w {
      AddedMeans({}, ds, w);
    }
  }

  lemma CoherentAdd(f: Rules, op: Op)
    requires f.Coherent()
    ensures Apply(f, op).Coherent()
  {
    if op.Add? {
      AddRulesAdds(f, op.rules);
      forall n | n in Added(f.whitelist, op.rules) ensures n != "" {
        AddedMeans(f.whitelist, op.rules, n);
      }
    }
  }

  lemma {:induction false} HistoryCoherent(f: Rules, ops: seq<Op>)
    requires f.Coherent()
    ensures After(f, ops).Coherent()
  {
    if ops == [] {
    } else {
      HistoryCoherent(f, ops[..|ops| - 1]);
      CoherentAdd(After(f, ops[..|ops| - 1]), ops[|ops| - 1]);
    }
  }

  /** Step `k` adds rule `n` while it is not exempted. */
  predicate AddsAt(f: Rules, ops: seq<Op>, k: nat, n: string)
    requires k < |ops|
  {
    ops[k].Add? && n != "" && n !in After(f, ops[..k]).whitelist && exists d :: d in ops[k].rules && Normalise(d) == n
  }

  lemma AddsEarlier(f: Rules, ops: seq<Op>, k: nat, n: string)
    requires k < |ops| - 1
    ensures AddsAt(f, ops, k, n) <==> AddsAt(f, ops[..|ops| - 1], k, n)
  {
    assert ops[..|ops| - 1][..k] == ops[..k];
  }

  lemma LastInserts(f: Rules, ops: seq<Op>, n: string)
    requires ops != []
    ensures n in After(f, ops).inserted
       <==> (n in After(f, ops[..|ops| - 1]).inserted || AddsAt(f, ops, |ops| - 1, n))
  {
    var op := ops[|ops| - 1];
    if op.Add? {
      AddRulesMeans(After(f, ops[..|ops| - 1]), op.rules);
    }
  }

  /** Over every history, the inserted rules are those present at the start and those added while not exempted. */
  lemma {:induction false} HistoryInserts(f: Rules, ops: seq<Op>, n: string)
    ensures n in After(f, ops).inserted
       <==> (n in f.inserted || exists k: nat :: k < |ops| && AddsAt(f, ops, k, n))
  {
    if ops == [] {
    } else {
      var init := ops[..|ops| - 1];
      HistoryInserts(f, init, n);
      LastInserts(f, ops, n);
      forall k: nat | k < |init|
        ensures AddsAt(f, ops, k, n) <==> AddsAt(f, init, k, n)
      {
        AddsEarlier(f, ops, k, n);
      }
    }
  }

  predicate Exempts(op: Op, w: string) {
    op.Exempt? && w != "" && exists d :: d in op.names && Normalise(d) == w
  }

  predicate Lifts(op: Op, w: string) {
    op.Unexempt? && Normalise(op.name) == w
  }

  /** Over every history, a name is exempted if it was at the start or some call exempted it, and none lifted that
      since. */
  lemma {:induction false} HistoryExempts(f: Rules, ops: seq<Op>, w: string)
    ensures w in After(f, ops).whitelist
       <==> || (w in f.whitelist && forall j | 0 <= j < |ops| :: !Lifts(ops[j], w))
            || exists k :: 0 <= k < |ops| && Exempts(ops[k], w) && forall j | k < j < |ops| :: !Lifts(ops[j], w)
  {
    if ops == [] {
    } else {
      var init, op := ops[..|ops| - 1], ops[|ops| - 1];
      HistoryExempts(f, init, w);
      if op.Exempt? {
        AddWhitelistMeans(After(f, init), op.names);
      } else if op.Add? {
        AddRulesAdds(After(f, init), op.rules);
      }
      assert w in After(f, ops).whitelist <==> Exempts(op, w) || (w in After(f, init).whitelist && !Lifts(op, w));
      ExemptsMore(f.whitelist, ops, w);
    }
  }

  lemma ExemptsMore(start: set<string>, ops: seq<Op>, w: string)
    requires ops != []
    ensures var init, op := ops[..|ops| - 1], ops[|ops| - 1];
            var before := || (w in start && forall j | 0 <= j < |init| :: !Lifts(init[j], w))
                          || exists k :: 0 <= k < |init| && Exempts(init[k], w) && forall j | k < j < |init| :: !Lifts(init[j], w);
            var after := || (w in start && forall j | 0 <= j < |ops| :: !Lifts(ops[j], w))
                         || exists k :: 0 <= k < |ops| && Exempts(ops[k], w) && forall j | k < j < |ops| :: !Lifts(ops[j], w);
            after <==> Exempts(op, w) || (before && !Lifts(op, w))
  {
    hide Exempts, Lifts;
    var init := ops[..|ops| - 1];
    assert forall j | 0 <= j < |init| :: init[j] == ops[j];
  }

  function Toggles(ops: seq<Op>): nat {
    if ops == [] then 0 else Toggles(ops[..|ops| - 1]) + if ops[|ops| - 1].Toggle? then 1 else 0
  }

  /** The switch is where an even or odd number of toggles leaves it. */
  lemma {:induction false} HistorySwitch(f: Rules, ops: seq<Op>)
    ensures After(f, ops).enabled <==> (f.enabled <==> Toggles(ops) % 2 == 0)
  {
    if ops == [] {
    } else {
      var init, op := ops[..|ops| - 1], ops[|ops| - 1];
      HistorySwitch(f, init);
      if op.Add? {
        AddRulesAdds(After(f, init), op.rules);
      }
    }
  }

  /** The refinement over every history, for every hash function: only the added names matter. */
  lemma HistoryRefines(f: Rules, ops: seq<Op>, shape: Shape, d: string)
    requires shape.Sound() && f.Coherent() && Fixed(Normalise(d))
    requires forall n | n in f.inserted :: Fixed(n) && |Split(n)| >= 2
    requires forall k: nat, r | k < |ops| && ops[k].Add? && r in ops[k].rules ::
               Fixed(Normalise(r)) && |Split(Normalise(r))| >= 2
    ensures var now, clean := After(f, ops), Normalise(d);
            now.Verdict(shape, d) <==>
              && now.enabled && clean != "" && (forall w | w in now.whitelist :: !Under(clean, w))
              && exists n :: n in now.inserted && Under(clean, n)
  {
    HistoryCoherent(f, ops);
    forall n | n in After(f, ops).inserted
      ensures Fixed(n) && |Split(n)| >= 2
    {
      HistoryInserts(f, ops, n);
      if n !in f.inserted {
        var k: nat :| k < |ops| && AddsAt(f, ops, k, n);
      }
    }
    FilterRefines(After(f, ops), shape, d);
  }

  /** The filter before it is told anything: its built-in rules and its one exemption. */
  function Initial(enabled: bool, core: seq<string>): Rules {
    Rules(enabled, {"delusional.club"}, {}, {}).AddCores(core)
  }

  lemma {:induction false} AddCoresAdds(f: Rules, core: seq<string>)
    requires f.Coherent()
    ensures var g := f.AddCores(core);
            g == f.(inserted := f.inserted + Added({}, core), probed := g.probed) && f.probed <= g.probed && g.Coherent()
  {
    hide Normalise, Rules.AddCore, Rules.Coherent;
    if core == [] {
    } else {
      var init, last := core[..|core| - 1], core[|core| - 1];
      AddCoresAdds(f, init);
      OneCore(f.AddCores(init), last);
    }
  }

  lemma OneCore(f: Rules, d: string)
    requires f.Coherent()
    ensures var clean, g := Normalise(d), f.AddCore(d);
            && g == f.(inserted := f.inserted + (if clean == "" then {} else {clean}), probed := g.probed)
            && f.probed <= g.probed && g.Coherent()
  {
    hide Normalise, Suffixes;
  }

  /** Built-in rules are inserted even if exempted. */
  lemma AddCoresMeans(f: Rules, core: seq<string>)
    requires f.Coherent()
    ensures var g := f.AddCores(core);
            && g.enabled == f.enabled && g.whitelist == f.whitelist && g.Coherent()
            && forall n :: n in g.inserted <==> n in f.inserted || (n != "" && exists d :: d in core && Normalise(d) == n)
  {
    hide Normalise, Rules.AddCores, Rules.Coherent;
    AddCoresAdds(f, core);
    forall n {
      AddedMeans({}, core, n);
    }
  }

  /** And every suffix of theirs goes into the Bloom filter. */
  lemma {:induction false} CoreProbed(f: Rules, core: seq<string>, d: string, i: nat)
    requires f.Coherent() && d in core && Normalise(d) != "" && i < |Split(Normalise(d))|
    ensures Join(Split(Normalise(d))[i..]) in f.AddCores(core).probed
  {
    hide Normalise, Split, Join, Suffixes;
    var init, last := core[..|core| - 1], core[|core| - 1];
    AddCoresAdds(f, init);
    assert core == init + [last];
    if d == last {
      AllSuffixes(Normalise(d), |Split(Normalise(d))|, i);
    } else {
      CoreProbed(f, init, d, i);
    }
  }

  lemma {:induction false} AllSuffixes(clean: string, k: nat, i: nat)
    requires i < k <= |Split(clean)|
    ensures Join(Split(clean)[i..]) in Suffixes(clean, k)
  {
    if i < k - 1 {
      AllSuffixes(clean, k - 1, i);
    }
  }

  lemma InitialRules(enabled: bool, core: seq<string>)
    ensures var f := Initial(enabled, core);
            && (forall n :: n in f.inserted <==> n != "" && exists d :: d in core && Normalise(d) == n)
            && f.Coherent() && f.enabled == enabled && f.whitelist == {"delusional.club"}
  {
    AddCoresMeans(Rules(enabled, {"delusional.club"}, {}, {}), core);
  }

  /** The refinement from the start: it holds through every history of a filter whose built-in rules and added rules
      have two labels or more. */
  lemma RefinesFromStart(enabled: bool, core: seq<string>, ops: seq<Op>, shape: Shape, d: string)
    requires shape.Sound() && Fixed(Normalise(d))
    requires forall r | r in core :: Fixed(Normalise(r)) && |Split(Normalise(r))| >= 2
    requires forall k: nat, r | k < |ops| && ops[k].Add? && r in ops[k].rules ::
               Fixed(Normalise(r)) && |Split(Normalise(r))| >= 2
    ensures var now, clean := After(Initial(enabled, core), ops), Normalise(d);
            now.Verdict(shape, d) <==>
              && now.enabled && clean != "" && (forall w | w in now.whitelist :: !Under(clean, w))
              && exists n :: n in now.inserted && Under(clean, n)
  {
    var f := Initial(enabled, core);
    InitialRules(enabled, core);
    hide Initial;
    HistoryRefines(f, ops, shape, d);
  }
}
