/** The domain filter: whitelist, cache, Bloom filter and trie, kept in step with the rules they stand for. */
module CyberShield {
  import opened Wrappers
  import opened Names
  import opened Bloom
  import opened Trie
  import opened LruCache
  import opened Filter

  const LOG_LENGTH := 50

  /** A blocked query and its time of day as text. The action, which is always "BLOCKED", is not kept. */
  datatype LogEntry = LogEntry(domain: string, time: string)

  class CyberShieldAdBlocker {
    var enabled: bool
    const bloom: BloomFilter
    const trie: ReverseDomainRadixTrie
    var whitelist: set<string>
    var lruCache: seq<Entry>
    const cacheCapacity: nat

    var blockedQueriesCount: nat
    var totalQueriesProcessed: nat
    var lastBlockedDomain: Option<string>
    var recentBlockedLog: seq<LogEntry>

    /** The rules inserted so far. */
    ghost var inserted: set<string>
    /** The names that reached the cache since it was last cleared, in order. */
    ghost var uses: seq<string>
    /** The names blocked so far and when, in order. */
    ghost var blocked: seq<LogEntry>

    ghost function State(): Rules
      reads this`enabled, this`whitelist, this`inserted, bloom`items
    {
      Rules(enabled, whitelist, inserted, bloom.items)
    }

    ghost function Repr(): set<object>
      reads bloom`bitArray, trie`nodes
    {
      {this, bloom, bloom.bitArray, trie} + trie.nodes.Values
    }

    /** Trie and Bloom filter hold the inserted rules. */
    ghost predicate Loaded()
      reads this`enabled, this`whitelist, this`inserted, bloom, bloom.bitArray, trie, trie.nodes.Values
    {
      && bloom.Valid() && trie.Valid()
      && trie.rules == PathsOf(inserted)
      && State().Coherent()
      && cacheCapacity >= 1
    }

    ghost predicate Valid()
      reads this, bloom, bloom.bitArray, trie, trie.nodes.Values
    {
      Loaded() && CacheValid() && LogValid()
    }

    /** The cache holds the most recently used names, with the verdicts the present rules give. */
    ghost predicate CacheValid()
      requires bloom.Valid()
      reads this`enabled, this`whitelist, this`inserted, this`lruCache, this`uses, bloom, bloom.bitArray
    {
      && NamesOf(lruCache) == MostRecent(uses, cacheCapacity)
      && forall e | e in lruCache :: e.verdict == State().Answer(bloom.shape, e.name)
    }

    ghost predicate LogValid()
      reads this`blocked, this`blockedQueriesCount, this`lastBlockedDomain, this`recentBlockedLog
    {
      && blockedQueriesCount == |blocked|
      && lastBlockedDomain == (if blocked == [] then None else Some(blocked[|blocked| - 1].domain))
      && recentBlockedLog == LastN(blocked, LOG_LENGTH)
    }

    lemma NothingYet()
      requires Loaded() && lruCache == [] && uses == []
      requires blocked == [] && blockedQueriesCount == 0 && lastBlockedDomain == None && recentBlockedLog == []
      ensures CacheValid() && LogValid()
    {
    }

    /** The fields before the built-in rules are loaded. */
    constructor (enableAdblock: bool, shape: Shape, cacheCapacity: nat)
      requires shape.Sound() && cacheCapacity >= 1
      ensures Valid() && bloom.shape == shape && lruCache == [] && this.cacheCapacity == cacheCapacity
      ensures fresh(bloom) && fresh(bloom.bitArray) && fresh(trie) && fresh(trie.nodes.Values)
      ensures State() == Rules(enableAdblock, {"delusional.club"}, {}, {})
      ensures uses == [] && blocked == [] && totalQueriesProcessed == 0
    {
      enabled := enableAdblock;
      bloom := new BloomFilter(shape);
      trie := new ReverseDomainRadixTrie();
      whitelist := {"delusional.club"};
      lruCache := [];
      this.cacheCapacity := cacheCapacity;
      blockedQueriesCount, totalQueriesProcessed, lastBlockedDomain, recentBlockedLog := 0, 0, None, [];
      inserted, uses, blocked := {}, [], [];
      new;
      hide CacheValid, LogValid;
      NothingYet();
    }

    method LoadCoreBlocklists(core: seq<string>)
      requires Valid() && lruCache == []
      modifies this`inserted, bloom`items, bloom.bitArray, trie, trie.nodes.Values
      ensures Valid() && fresh(trie.nodes.Values - old(trie.nodes.Values))
      ensures State() == old(State()).AddCores(core)
      ensures forall n :: n in inserted <==> n in old(inserted) || (n != "" && exists d :: d in core && Normalise(d) == n)
    {
      hide ReverseDomainRadixTrie.Valid, BloomFilter.Valid, Rules.Answer, Rules.Candidate, Rules.Coherent, Normalise;
      ghost var start := State();
      AddCoresMeans(start, core);
      for k := 0 to |core|
        invariant Loaded() && fresh(trie.nodes.Values - old(trie.nodes.Values))
        invariant State() == start.AddCores(core[..k])
      {
        assert core[..k + 1][..k] == core[..k];
        var clean := Normalise(core[k]);
        if clean != "" {
          InsertRule(clean);
          AddSuffixes(clean);
        }
      }
      assert core[..|core|] == core;
    }

    /** Puts a name into both lookup structures. */
    method InsertRule(clean: string)
      requires Loaded() && clean != ""
      modifies this`inserted, bloom`items, bloom.bitArray, trie, trie.nodes.Values
      ensures Loaded() && fresh(trie.nodes.Values - old(trie.nodes.Values))
      ensures State() == old(State()).(inserted := old(inserted) + {clean}, probed := old(bloom.items) + {clean})
    {
      hide ReverseDomainRadixTrie.Valid, BloomFilter.Valid, Rules.Answer, Rules.Candidate, Normalise;
      trie.Insert(clean);
      bloom.Add(clean);
      inserted := inserted + {clean};
      assert PathsOf(inserted) == PathsOf(old(inserted)) + {Path(clean)};
    }

    method AddSuffixes(clean: string)
      requires Loaded()
      modifies bloom`items, bloom.bitArray
      ensures Loaded()
      ensures State() == old(State()).(probed := old(bloom.items) + Suffixes(clean, |Split(clean)|))
    {
      hide ReverseDomainRadixTrie.Valid, BloomFilter.Valid, Rules.Answer, Rules.Candidate, Normalise;
      var labels := Split(clean);
      for i := 0 to |labels|
        invariant bloom.Valid() && bloom.items == old(bloom.items) + Suffixes(clean, i)
      {
        bloom.Add(Join(labels[i..]));
      }
    }

    method ClearCache()
      requires Loaded()
      modifies this`lruCache, this`uses
      ensures Loaded() && CacheValid() && uses == []
    {
      hide ReverseDomainRadixTrie.Valid, BloomFilter.Valid, Rules.Answer, Rules.Coherent;
      lruCache, uses := [], [];
    }

    method AddCustomRules(domains: seq<string>)
      requires Valid()
      modifies Repr()
      ensures Valid() && fresh(Repr() - old(Repr()))
      ensures State() == old(State()).AddRules(domains)
      ensures forall n :: n in inserted
                <==> n in old(inserted) || (n != "" && n !in whitelist && exists d :: d in domains && Normalise(d) == n)
      ensures uses == [] && unchanged(this`blocked, this`totalQueriesProcessed)
    {
      hide Loaded, CacheValid, LogValid, Normalise;
      ghost var start := State();
      AddRulesMeans(start, domains);
      for k := 0 to |domains|
        invariant Loaded() && LogValid() && fresh(Repr() - old(Repr()))
        invariant State() == start.AddRules(domains[..k])
        invariant unchanged(this`blocked, this`totalQueriesProcessed)
      {
        assert domains[..k + 1][..k] == domains[..k];
        var clean := Normalise(domains[k]);
        if clean != "" && clean !in whitelist {
          InsertRule(clean);
        }
      }
      assert domains[..|domains|] == domains;
      assert State() == start.AddRules(domains) && start.inserted == old(inserted);
      assert whitelist == start.whitelist && inserted == start.AddRules(domains).inserted;
      ClearCache();
    }

    method AddWhitelist(domains: seq<string>)
      requires Valid()
      modifies this
      ensures Valid() && Repr() == old(Repr())
      ensures State() == old(State()).AddWhitelist(domains)
      ensures forall w :: w in whitelist <==> w in old(whitelist) || (w != "" && exists d :: d in domains && Normalise(d) == w)
      ensures uses == [] && unchanged(this`blocked, this`totalQueriesProcessed)
    {
      hide ReverseDomainRadixTrie.Valid, BloomFilter.Valid, Rules.Answer, Rules.Candidate, Normalise;
      AddWhitelistMeans(State(), domains);
      for k := 0 to |domains|
        invariant whitelist == old(whitelist) + Added({}, domains[..k])
        modifies this`whitelist
      {
        assert domains[..k + 1][..k] == domains[..k];
        var clean := Normalise(domains[k]);
        if clean != "" {
          whitelist := whitelist + {clean};
        }
      }
      assert domains[..|domains|] == domains;
      ClearCache();
    }

    method RemoveWhitelist(domain: string)
      requires Valid()
      modifies this
      ensures Valid() && Repr() == old(Repr())
      ensures State() == old(State()).RemoveWhitelist(domain)
      ensures Normalise(domain) !in whitelist && forall w | w != Normalise(domain) :: w in whitelist <==> w in old(whitelist)
      ensures uses == [] && unchanged(this`blocked, this`totalQueriesProcessed)
    {
      hide BloomFilter.Valid, ReverseDomainRadixTrie.Valid, LogValid, PathsOf, Normalise;
      whitelist := whitelist - {Normalise(domain)};
      ClearCache();
    }

    method Toggle() returns (on: bool)
      requires Valid()
      modifies this`enabled
      ensures Valid() && on == enabled == !old(enabled)
    {
      hide MightHold, BloomFilter.Valid, ReverseDomainRadixTrie.Valid, LogValid, MostRecent, PathsOf, Path;
      enabled := !enabled;
      return enabled;
    }

    lemma VerdictMeans(domain: string)
      requires Loaded() && Fixed(Normalise(domain)) && forall n | n in inserted :: Fixed(n) && |Split(n)| >= 2
      ensures State().Verdict(bloom.shape, domain) <==>
                && enabled && Normalise(domain) != "" && (forall w | w in whitelist :: !Under(Normalise(domain), w))
                && exists n :: n in inserted && Under(Normalise(domain), n)
    {
      FilterRefines(State(), bloom.shape, domain);
    }

    method ShouldBlock(domain: string, now: string) returns (verdict: bool)
      requires Valid()
      modifies this
      ensures Valid() && Repr() == old(Repr()) && State() == old(State())
      ensures verdict == State().Verdict(bloom.shape, domain)
      ensures verdict ==> enabled && Normalise(domain) != "" && forall w | w in whitelist :: !Under(Normalise(domain), w)
      ensures Fixed(Normalise(domain)) && (forall n | n in inserted :: Fixed(n) && |Split(n)| >= 2) ==>
                (verdict <==>
                   && enabled && Normalise(domain) != "" && (forall w | w in whitelist :: !Under(Normalise(domain), w))
                   && exists n :: n in inserted && Under(Normalise(domain), n))
      ensures uses == old(uses) + if State().Checks(Normalise(domain)) then [Normalise(domain)] else []
      ensures blocked == old(blocked) + if verdict then [LogEntry(Normalise(domain), now)] else []
      ensures totalQueriesProcessed == old(totalQueriesProcessed) + if enabled && Normalise(domain) != "" then 1 else 0
    {
      hide CacheValid, LogValid, ReverseDomainRadixTrie.Valid, BloomFilter.Valid, Rules.Answer, Rules.Coherent, Normalise;
      if Fixed(Normalise(domain)) && forall n | n in inserted :: Fixed(n) && |Split(n)| >= 2 {
        VerdictMeans(domain);
      }
      if !enabled {
        return false;
      }
      var clean := Normalise(domain);
      if clean == "" {
        return false;
      }
      totalQueriesProcessed := totalQueriesProcessed + 1;
      var exempt := IsWhitelisted(clean);
      if exempt {
        return false;
      }
      verdict := Resolve(clean);
      if verdict {
        RecordBlocked(clean, now);
      }
    }

    /** The cache, and behind it the Bloom filter and the trie. */
    method Resolve(clean: string) returns (verdict: bool)
      requires Loaded() && CacheValid()
      modifies this`lruCache, this`uses
      ensures Loaded() && CacheValid()
      ensures verdict == State().Answer(bloom.shape, clean)
      ensures uses == old(uses) + [clean]
    {
      hide ReverseDomainRadixTrie.Valid, BloomFilter.Valid, Rules.Candidate, Rules.Coherent, Path, MostRecent;
      uses := uses + [clean];
      if i: nat :| i < |lruCache| && lruCache[i].name == clean {
        verdict := lruCache[i].verdict;
        TouchRecent(lruCache, i, old(uses), cacheCapacity);
        lruCache := Touch(lruCache, i);
      } else {
        var candidate := BloomCandidate(clean);
        verdict := false;
        if candidate {
          verdict := trie.Match(clean);
        }
        CacheResult(clean, verdict);
      }
    }

    method IsWhitelisted(clean: string) returns (exempt: bool)
      ensures exempt <==> exists w :: w in whitelist && Under(clean, w)
    {
      if clean in whitelist {
        assert Under(clean, clean);
        return true;
      }
      var left := whitelist;
      while left != {}
        invariant left <= whitelist
        invariant forall w | w in whitelist - left :: !Under(clean, w)
      {
        var w :| w in left;
        if EndsWith(clean, "." + w) {
          return true;
        }
        left := left - {w};
      }
      return false;
    }

    method BloomCandidate(clean: string) returns (candidate: bool)
      requires Loaded()
      ensures candidate <==> State().Candidate(bloom.shape, clean)
    {
      var labels := Split(clean);
      for i := 0 to |labels| - 1
        invariant forall j: nat | j < i :: !bloom.shape.Reports(bloom.items, Join(labels[j..]))
      {
        var present := bloom.Contains(Join(labels[i..]));
        if present {
          return true;
        }
      }
      return false;
    }

    method CacheResult(domain: string, verdict: bool)
      requires bloom.Valid() && cacheCapacity >= 1 && uses != [] && uses[|uses| - 1] == domain
      requires NamesOf(lruCache) == MostRecent(uses[..|uses| - 1], cacheCapacity) && domain !in NamesOf(lruCache)
      requires verdict == State().Answer(bloom.shape, domain)
      requires forall e | e in lruCache :: e.verdict == State().Answer(bloom.shape, e.name)
      modifies this`lruCache
      ensures CacheValid()
    {
      hide MostRecent, Rules.Answer, BloomFilter.Valid, ReverseDomainRadixTrie.Valid;
      StoreRecent(lruCache, Entry(domain, verdict), uses[..|uses| - 1], cacheCapacity);
      assert uses[..|uses| - 1] + [domain] == uses;
      if |lruCache| >= cacheCapacity {
        lruCache := lruCache[1..];
      }
      lruCache := lruCache + [Entry(domain, verdict)];
    }

    method RecordBlocked(domain: string, now: string)
      requires LogValid()
      modifies this`blocked, this`blockedQueriesCount, this`lastBlockedDomain, this`recentBlockedLog
      ensures LogValid() && blocked == old(blocked) + [LogEntry(domain, now)]
      ensures recentBlockedLog == if |blocked| <= 50 then blocked else blocked[|blocked| - 50..]
    {
      blocked := blocked + [LogEntry(domain, now)];
      blockedQueriesCount := blockedQueriesCount + 1;
      lastBlockedDomain := Some(domain);
      recentBlockedLog := recentBlockedLog + [LogEntry(domain, now)];
      if |recentBlockedLog| > LOG_LENGTH {
        recentBlockedLog := recentBlockedLog[1..];
      }
    }
  }

  /** The filter as it starts, with the built-in rules. */
  method NewAdBlocker(enableAdblock: bool, shape: Shape, core: seq<string>, cacheCapacity: nat := 10000)
    returns (shield: CyberShieldAdBlocker)
    requires shape.Sound() && cacheCapacity >= 1
    ensures fresh(shield) && shield.Valid() && shield.bloom.shape == shape
    ensures shield.State() == Initial(enableAdblock, core)
    ensures shield.enabled == enableAdblock && shield.whitelist == {"delusional.club"}
    ensures forall n :: n in shield.inserted <==> n != "" && exists d :: d in core && Normalise(d) == n
    ensures shield.uses == [] && shield.blocked == [] && shield.totalQueriesProcessed == 0
  {
    hide CyberShieldAdBlocker.Valid, Rules.AddCores, Normalise;
    InitialRules(enableAdblock, core);
    shield := new CyberShieldAdBlocker(enableAdblock, shape, cacheCapacity);
    shield.LoadCoreBlocklists(core);
  }
}
