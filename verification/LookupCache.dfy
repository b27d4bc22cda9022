/** The memo of DNS lookups in run.go: lookupCache, its get, setContext and dropTrust. */
module LookupCache {
  import opened Text
  import opened Records

  // ---------------------------------------------------------------- the keys

  function Key(name: string, qtype: string): string {
    name + "/" + qtype
  }

  lemma LastSlash(name: string, qtype: string)
    requires '/' !in qtype
    ensures var k := Key(name, qtype);
      && k[..|name|] == name && k[|name|] == '/' && k[|name| + 1..] == qtype
      && (forall i :: |name| < i < |k| ==> k[i] != '/')
  {
    var k := Key(name, qtype);
    forall i | |name| < i < |k| ensures k[i] != '/' {
      assert k[i] == qtype[i - |name| - 1];
    }
  }

  /** No query type holds a slash, so a key stands for one name and one type, whatever
      characters the name holds. */
  lemma KeyUnambiguous(name: string, qtype: string, name': string, qtype': string)
    requires '/' !in qtype && '/' !in qtype'
    ensures Key(name, qtype) == Key(name', qtype') <==> name == name' && qtype == qtype'
  {
    LastSlash(name, qtype);
    LastSlash(name', qtype');
  }

  // --------------------------------------------------------- the shared object

  function Erase(l: Lookup): Lookup {
    l.(trust := TrustNone)
  }

  function Erased(done: map<string, Lookup>): map<string, Lookup> {
    map k | k in done :: Erase(done[k])
  }

  /** All of a lookup but its trust. */
  predicate SameButTrust(l: Lookup, from: Lookup) {
    && l.name == from.name && l.qtype == from.qtype && l.status == from.status
    && l.records == from.records && l.cname == from.cname && l.rrs == from.rrs
  }

  /** Every entry has lost its trust, and nothing else has changed. */
  predicate TrustGone(done: map<string, Lookup>, before: map<string, Lookup>) {
    && done.Keys == before.Keys
    && forall k :: k in done ==> done[k].trust == TrustNone && SameButTrust(done[k], before[k])
  }

  datatype Question = Question(name: string, qtype: string)
  {
    predicate Proper() { '/' !in qtype }
    function CacheKey(): string { Key(name, qtype) }
  }

  /** The answer given when a deadline ends before an answer is there. */
  function TimedOut(q: Question): Lookup {
    Lookup(q.name, q.qtype, StatusTimeout, TrustNone, [], [], [])
  }

  /** The answer for a target that is not a DNS name. */
  function NotAName(name: string, qtype: string): Lookup {
    Lookup(name, qtype, StatusFailure, TrustNone, [], [], [])
  }

  /** What the mutex guards. `phase` names the current context. */
  datatype Memo = Memo(phase: nat, done: map<string, Lookup>)

  datatype Reading = Found(lookup: Lookup) | Miss(base: nat)

  function Recalled(m: Memo, key: string): Reading {
    if key in m.done then Found(m.done[key]) else Miss(m.phase)
  }

  function Stored(m: Memo, key: string, l: Lookup): Memo {
    m.(done := m.done[key := l])
  }

  function Dropped(m: Memo): Memo {
    m.(done := Erased(m.done))
  }

  /** The guarded fields. Each method is one step of the protocol in LookupProtocol, which uses
      the same functions. */
  class Cache {
    var phase: nat
    var done: map<string, Lookup>

    ghost function View(): Memo
      reads this
    {
      Memo(phase, done)
    }

    constructor (phase: nat)
      ensures View() == Memo(phase, map[])
    {
      this.phase := phase;
      done := map[];
    }

    method SetContext(phase: nat)
      modifies this`phase
      ensures View() == old(View()).(phase := phase)
    {
      this.phase := phase;
    }

    method Recall(key: string) returns (r: Reading)
      ensures r == Recalled(View(), key)
    {
      r := if key in done then Found(done[key]) else Miss(phase);
    }

    method Store(key: string, l: Lookup)
      modifies this`done
      ensures View() == Stored(old(View()), key, l)
    {
      done := done[key := l];
    }

    /** get, undisturbed by other goroutines; `over` are the phases whose budget is spent and
        `query` is dnsLookup. */
    method Get(
      name: string, qtype: string, dnsName: string -> Option<string>, over: set<nat>, query: Question -> Lookup)
      returns (l: Lookup)
      modifies this`done
      ensures dnsName(name).None? ==> l == NotAName(name, qtype) && View() == old(View())
      ensures dnsName(name).Some? ==>
        var q := Question(dnsName(name).value, qtype);
        match Recalled(old(View()), q.CacheKey())
        case Found(found) => l == found && View() == old(View())
        case Miss(base) =>
          if base in over then l == TimedOut(q) && View() == old(View())
          else l == query(q) && View() == Stored(old(View()), q.CacheKey(), l)
      ensures dnsName(name).None? ==> l.status == StatusFailure && l.name == name && l.records == []
      ensures dnsName(name).Some? && Key(dnsName(name).value, qtype) !in old(done) && phase in over ==>
        l.status == StatusTimeout && l.name == dnsName(name).value && l.records == []
    {
      if dnsName(name).None? {
        return NotAName(name, qtype);
      }
      var q := Question(dnsName(name).value, qtype);
      var r := Recall(q.CacheKey());
      if r.Found? {
        return r.lookup;
      }
      if r.base in over {
        return TimedOut(q);
      }
      l := query(q);
      Store(q.CacheKey(), l);
    }

    method DropTrust()
      modifies this`done
      ensures View() == Dropped(old(View()))
      ensures phase == old(phase) && TrustGone(done, old(done))
    {
      var left := done.Keys;
      while left != {}
        invariant left <= done.Keys == old(done).Keys
        invariant forall k :: k in done ==> done[k] == if k in left then old(done)[k] else Erase(old(done)[k])
        decreases left
      {
        var k :| k in left;
        done := done[k := Erase(done[k])];
        left := left - {k};
      }
    }
  }
}
