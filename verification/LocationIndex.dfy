/** The dispatch index by location key of include/TA_TypeMap.cpp: nested maps that must agree with a scan of the
    registered (domain or star, key, proxy) triples. */
module LocationIndex {
  import opened EventTypes
  import opened Wrappers

  type Proxy = nat

  /** Proxies by location key. */
  type Keyed = map<nat, set<Proxy>>

  predicate In(m: Keyed, k: nat, p: Proxy) {
    k in m && p in m[k]
  }

  ghost predicate NoEmpty(m: Keyed) {
    forall k | k in m :: m[k] != {}
  }

  /** The lowest key a proxy is registered under: the one that an ordered walk of the map finds. */
  ghost predicate IsLowest(m: Keyed, p: Proxy, key: Option<nat>) {
    match key
    case Some(k) => In(m, k, p) && forall j: nat | j < k :: !In(m, j, p)
    case None => forall j: nat :: !In(m, j, p)
  }

  lemma {:induction false} LeastOf(s: set<nat>) returns (k: nat)
    requires s != {}
    ensures k in s && forall j | j in s :: k <= j
    decreases |s|
  {
    k :| k in s;
    var rest := s - {k};
    assert forall j | j in s :: j == k || j in rest;
    if rest != {} {
      var l := LeastOf(rest);
      k := if l < k then l else k;
    }
  }

  lemma CutFromKey(m: Keyed, m': Keyed, k: nat, p: Proxy)
    requires NoEmpty(m) && In(m, k, p)
    requires m' == if m[k] - {p} == {} then m - {k} else m[k := m[k] - {p}]
    ensures NoEmpty(m') && forall j: nat, q: Proxy :: In(m', j, q) <==> In(m, j, q) && !(k == j && q == p)
  {
    if m[k] - {p} == {} {
      assert m[k] == {p};
    }
  }

  method Lowest(s: set<nat>) returns (k: nat)
    requires s != {}
    ensures k in s && forall j: nat | j < k :: j !in s
  {
    ghost var least := LeastOf(s);
    k :| k in s && forall j | j in s :: k <= j;
  }

  /** The ordered walk of the map to the first entry that has the proxy. */
  method FindKey(m: Keyed, p: Proxy) returns (key: Option<nat>)
    ensures IsLowest(m, p, key)
  {
    var left: set<nat> := m.Keys;
    ghost var low: nat := 0;
    while left != {}
      invariant forall j: nat :: j in left <==> j in m && j >= low
      invariant forall j: nat | j < low :: !In(m, j, p)
      decreases |left|
    {
      var k := Lowest(left);
      if p in m[k] {
        return Some(k);
      }
      left, low := left - {k}, k + 1;
    }
    return None;
  }

  /** Removes a proxy from the first entry that has it, and the entry with its last proxy. */
  method RemoveProxy(m: Keyed, p: Proxy) returns (m': Keyed, key: Option<nat>)
    requires NoEmpty(m)
    ensures NoEmpty(m') && IsLowest(m, p, key)
    ensures forall j: nat, q: Proxy :: In(m', j, q) <==> In(m, j, q) && !(key == Some(j) && q == p)
    ensures key.None? ==> m' == m
  {
    key := FindKey(m, p);
    if key.None? {
      return m, None;
    }
    var k := key.value;
    var list := m[k] - {p};
    m' := if list == {} then m - {k} else m[k := list];
    CutFromKey(m, m', k, p);
  }

  /** The map below a domain, empty if there is none. */
  function Below(d: map<string, Keyed>, domain: string): Keyed {
    if domain in d then d[domain] else map[]
  }

  /** The same below a domain; a domain goes with its last entry. */
  method RemoveProxyOf(d: map<string, Keyed>, p: Proxy, domain: string)
    returns (d': map<string, Keyed>, key: Option<nat>)
    requires forall n | n in d :: NoEmpty(d[n]) && d[n] != map[]
    ensures forall n | n in d' :: NoEmpty(d'[n]) && d'[n] != map[]
    ensures IsLowest(Below(d, domain), p, key)
    ensures forall j: nat, q: Proxy ::
              In(Below(d', domain), j, q) <==> In(Below(d, domain), j, q) && !(key == Some(j) && q == p)
    ensures forall n | n != domain :: Below(d', n) == Below(d, n)
    ensures forall n | n in d' :: n in d
    ensures key.None? ==> d' == d
  {
    if domain !in d {
      return d, None;
    }
    var m;
    m, key := RemoveProxy(d[domain], p);
    if key.None? {
      return d, None;
    }
    if m == map[] {
      d' := d - {domain};
      assert forall j: nat, q: Proxy :: !In(m, j, q);
    } else {
      d' := d[domain := m];
    }
  }

  /** Delivers to the live proxies of a list and collects the others. */
  method Deliver(list: set<Proxy>, live: set<Proxy>) returns (calls: seq<Proxy>, dead: set<Proxy>)
    ensures forall p :: p in calls <==> p in list && p in live
    ensures forall i, j | 0 <= i < j < |calls| :: calls[i] != calls[j]
    ensures dead == list - live
  {
    calls, dead := [], {};
    var left: set<Proxy> := list;
    while left != {}
      invariant left <= list && dead == (list - left) - live
      invariant forall p :: p in calls <==> p in list && p !in left && p in live
      invariant forall i, j | 0 <= i < j < |calls| :: calls[i] != calls[j]
      decreases |left|
    {
      var p :| p in left;
      if p in live {
        calls := calls + [p];
      } else {
        dead := dead + {p};
      }
      left := left - {p};
    }
  }

  /** Every proxy of `dead` has lost the entry under its lowest key; nothing else has changed. */
  ghost predicate LostLowest(m: Keyed, m': Keyed, dead: set<Proxy>) {
    forall j: nat, q: Proxy {:trigger In(m', j, q)} {:trigger In(m, j, q)} ::
      In(m', j, q) <==> In(m, j, q) && !(q in dead && IsLowest(m, q, Some(j)))
  }

  lemma LosesOneMore(m: Keyed, m1: Keyed, m2: Keyed, dead: set<Proxy>, p: Proxy, key: Option<nat>)
    requires LostLowest(m, m1, dead) && p !in dead && IsLowest(m1, p, key)
    requires forall j: nat, q: Proxy :: In(m2, j, q) <==> In(m1, j, q) && !(key == Some(j) && q == p)
    ensures LostLowest(m, m2, dead + {p})
  {
    assert forall j: nat :: In(m1, j, p) <==> In(m, j, p);
    assert IsLowest(m, p, key);
    forall j: nat, q: Proxy
      ensures In(m2, j, q) <==> In(m, j, q) && !(q in dead + {p} && IsLowest(m, q, Some(j)))
    {
      assert In(m2, j, q) <==> In(m1, j, q) && !(key == Some(j) && q == p);
      if q == p && IsLowest(m, p, Some(j)) {
        LowestIsUnique(m, p, key, j);
      }
    }
  }

  lemma LowestIsUnique(m: Keyed, p: Proxy, key: Option<nat>, j: nat)
    requires IsLowest(m, p, key) && IsLowest(m, p, Some(j))
    ensures key == Some(j)
  {
  }

  /** Drops every proxy of a list, each from the first entry that has it. */
  method RemoveAll(m: Keyed, dead: set<Proxy>) returns (m': Keyed)
    requires NoEmpty(m)
    ensures NoEmpty(m') && LostLowest(m, m', dead)
  {
    m' := m;
    var left: set<Proxy> := dead;
    while left != {}
      invariant left <= dead && NoEmpty(m') && LostLowest(m, m', dead - left)
      decreases |left|
    {
      var p :| p in left;
      ghost var before := m';
      var key;
      m', key := RemoveProxy(m', p);
      LosesOneMore(m, before, m', dead - left, p, key);
      assert dead - left + {p} == dead - (left - {p});
      left := left - {p};
    }
    assert dead - left == dead;
  }

  method RemoveAllOf(d: map<string, Keyed>, dead: set<Proxy>, domain: string) returns (d': map<string, Keyed>)
    requires forall n | n in d :: NoEmpty(d[n]) && d[n] != map[]
    ensures forall n | n in d' :: n in d && NoEmpty(d'[n]) && d'[n] != map[]
    ensures LostLowest(Below(d, domain), Below(d', domain), dead)
    ensures forall n | n != domain :: Below(d', n) == Below(d, n)
  {
    d' := d;
    var left: set<Proxy> := dead;
    while left != {}
      invariant left <= dead && forall n | n in d' :: n in d && NoEmpty(d'[n]) && d'[n] != map[]
      invariant LostLowest(Below(d, domain), Below(d', domain), dead - left)
      invariant forall n | n != domain :: Below(d', n) == Below(d, n)
      decreases |left|
    {
      var p :| p in left;
      ghost var before := d';
      var key;
      d', key := RemoveProxyOf(d', p, domain);
      LosesOneMore(Below(d, domain), Below(before, domain), Below(d', domain), dead - left, p, key);
      assert dead - left + {p} == dead - (left - {p});
      left := left - {p};
    }
    assert dead - left == dead;
  }

  /** The triple of a domain, or of the star, with a key and a proxy is registered. */
  ghost predicate Has(lk: Keyed, d2: map<string, Keyed>, d: Option<string>, k: nat, p: Proxy) {
    In(if d.None? then lk else Below(d2, d.value), k, p)
  }

  /** The map a type selects: that of the star or that of a domain. */
  function Where(domain: string): Option<string> {
    if domain == "*" then None else Some(domain)
  }

  /** The triples after an update has added one. */
  ghost predicate HasAdded(lk: Keyed, d2: map<string, Keyed>, added: seq<EventType>, key: Option<nat>, p: Proxy,
                           d: Option<string>, k: nat, q: Proxy) {
    Has(lk, d2, d, k, q)
    || (Adds(added, key) && d == Where(added[0].domain) && Some(k) == key && q == p)
  }

  predicate Adds(added: seq<EventType>, key: Option<nat>) {
    added != [] && added[0].name == "*" && key.Some?
  }

  /** A dead proxy is met in the map of the star or the domain and filed there under `k` first. */
  ghost predicate DroppedAt(lk: Keyed, d2: map<string, Keyed>, domain: string, key: Option<nat>, live: set<Proxy>,
                            d: Option<string>, k: nat, q: Proxy) {
    && Met(lk, d2, domain, key, d, q) && q !in live
    && Has(lk, d2, d, k, q) && forall j: nat | j < k :: !Has(lk, d2, d, j, q)
  }

  ghost predicate Met(lk: Keyed, d2: map<string, Keyed>, domain: string, key: Option<nat>, d: Option<string>,
                      q: Proxy) {
    (d == None || d == Some(domain)) && key.Some? && Has(lk, d2, d, key.value, q)
  }

  ghost predicate AfterDispatch(lk: Keyed, d2: map<string, Keyed>, lk': Keyed, d2': map<string, Keyed>,
                                domain: string, key: Option<nat>, live: set<Proxy>) {
    forall d: Option<string>, k: nat, q: Proxy {:trigger Has(lk', d2', d, k, q)} ::
      Has(lk', d2', d, k, q) <==> Has(lk, d2, d, k, q) && !DroppedAt(lk, d2, domain, key, live, d, k, q)
  }

  lemma DispatchEffect(lk: Keyed, d2: map<string, Keyed>, lk': Keyed, d2': map<string, Keyed>, domain: string,
                       key: nat, live: set<Proxy>, dead1: set<Proxy>, dead2: set<Proxy>)
    requires forall q :: q in dead1 <==> In(lk, key, q) && q !in live
    requires forall q :: q in dead2 <==> In(Below(d2, domain), key, q) && q !in live
    requires LostLowest(lk, lk', dead1) && LostLowest(Below(d2, domain), Below(d2', domain), dead2)
    requires forall n | n != domain :: Below(d2', n) == Below(d2, n)
    ensures AfterDispatch(lk, d2, lk', d2', domain, Some(key), live)
  {
    forall d: Option<string>, k: nat, q: Proxy
      ensures Has(lk', d2', d, k, q) <==> Has(lk, d2, d, k, q) && !DroppedAt(lk, d2, domain, Some(key), live, d, k, q)
    {
      var m := if d.None? then lk else Below(d2, d.value);
      assert forall j: nat :: Has(lk, d2, d, j, q) <==> In(m, j, q);
    }
  }

  /** A dispatch drops from the map of the star, or of the domain, exactly the entries that dead proxies have there
      under the key of the event if and only if none of these proxies has an entry under a lower key in that map. */
  lemma DispatchDropsTheMet(lk: Keyed, d2: map<string, Keyed>, lk': Keyed, d2': map<string, Keyed>,
                            domain: string, key: nat, live: set<Proxy>, d: Option<string>)
    requires AfterDispatch(lk, d2, lk', d2', domain, Some(key), live) && (d == None || d == Some(domain))
    ensures (forall k: nat, q: Proxy :: Has(lk', d2', d, k, q) <==> Has(lk, d2, d, k, q) && !(k == key && q !in live))
            <==> forall k: nat, q: Proxy | Has(lk, d2, d, k, q) && Has(lk, d2, d, key, q) && q !in live :: k >= key
  {
  }

  /** Without a key, and in the maps of other domains, it drops nothing. */
  lemma DispatchLeavesOthers(lk: Keyed, d2: map<string, Keyed>, lk': Keyed, d2': map<string, Keyed>,
                             domain: string, key: Option<nat>, live: set<Proxy>, d: Option<string>)
    requires AfterDispatch(lk, d2, lk', d2', domain, key, live)
    requires key.None? || (d.Some? && d != Some(domain))
    ensures forall k: nat, q: Proxy :: Has(lk', d2', d, k, q) <==> Has(lk, d2, d, k, q)
  {
  }

  /** In particular if each proxy is under one key, as the code takes for granted, exactly those are dropped. */
  lemma OneKeyDropsTheMet(lk: Keyed, d2: map<string, Keyed>, lk': Keyed, d2': map<string, Keyed>,
                          domain: string, key: nat, live: set<Proxy>, d: Option<string>)
    requires AfterDispatch(lk, d2, lk', d2', domain, Some(key), live) && (d == None || d == Some(domain))
    requires forall j: nat, k: nat, q: Proxy | Has(lk, d2, d, j, q) && Has(lk, d2, d, k, q) :: j == k
    ensures forall k: nat, q: Proxy :: Has(lk', d2', d, k, q) <==> Has(lk, d2, d, k, q) && !(k == key && q !in live)
  {
    DispatchDropsTheMet(lk, d2, lk', d2', domain, key, live, d);
  }

  class TypeMap {
    var lk2prx: Keyed
    var d2lk2prx: map<string, Keyed>

    /** No empty inner set or map is kept, and the star is not a domain. */
    ghost predicate Valid()
      reads this
    {
      && NoEmpty(lk2prx) && "*" !in d2lk2prx
      && forall n | n in d2lk2prx :: NoEmpty(d2lk2prx[n]) && d2lk2prx[n] != map[]
    }

    constructor ()
      ensures Valid() && forall d: Option<string>, k: nat, p: Proxy :: !Has(lk2prx, d2lk2prx, d, k, p)
    {
      lk2prx, d2lk2prx := map[], map[];
    }

    /** The part of an update that adds a triple. */
    method AddProxy(domain: string, key: nat, p: Proxy)
      requires Valid()
      modifies this
      ensures Valid()
      ensures forall d: Option<string>, k: nat, q: Proxy ::
                Has(lk2prx, d2lk2prx, d, k, q)
                <==> Has(old(lk2prx), old(d2lk2prx), d, k, q) || (d == Where(domain) && k == key && q == p)
    {
      if domain == "*" {
        var list: set<Proxy> := if key in lk2prx then lk2prx[key] else {};
        lk2prx := lk2prx[key := list + {p}];
      } else {
        var m: Keyed := if domain in d2lk2prx then d2lk2prx[domain] else map[];
        var list: set<Proxy> := if key in m then m[key] else {};
        d2lk2prx := d2lk2prx[domain := m[key := list + {p}]];
      }
    }

    /** The part of an update that removes one: from the star map for the type `*::*` if that map has entries,
        otherwise from the map of the type's domain. */
    method DropProxy(e: EventType, p: Proxy) returns (key: Option<nat>)
      requires Valid() && e.name == "*"
      modifies this
      ensures Valid()
      ensures key.Some? ==> Has(old(lk2prx), old(d2lk2prx), Where(e.domain), key.value, p)
      ensures forall j: nat | key.None? || j < key.value :: !Has(old(lk2prx), old(d2lk2prx), Where(e.domain), j, p)
      ensures forall d: Option<string>, k: nat, q: Proxy ::
                Has(lk2prx, d2lk2prx, d, k, q)
                <==> Has(old(lk2prx), old(d2lk2prx), d, k, q) && !(d == Where(e.domain) && key == Some(k) && q == p)
    {
      key := None;
      if lk2prx != map[] && e.domain == "*" {
        lk2prx, key := RemoveProxy(lk2prx, p);
      } else if d2lk2prx != map[] {
        d2lk2prx, key := RemoveProxyOf(d2lk2prx, p, e.domain);
      }
    }

    /** Registers the proxy for the first added type and unregisters it, under its lowest key, for the first deleted
        one; says whether anything changed. `key` is the location key of the filter. */
    method TaUpdate(added: seq<EventType>, deled: seq<EventType>, p: Proxy, key: Option<nat>)
      returns (isChanged: bool, ghost gone: Option<nat>)
      requires Valid()
      modifies this
      ensures Valid() && (isChanged <==> Adds(added, key) || gone.Some?)
      ensures gone.Some? ==>
                (deled != [] && deled[0].name == "*"
                 && HasAdded(old(lk2prx), old(d2lk2prx), added, key, p, Where(deled[0].domain), gone.value, p))
      ensures deled != [] && deled[0].name == "*" ==> forall j: nat | gone.None? || j < gone.value ::
                !HasAdded(old(lk2prx), old(d2lk2prx), added, key, p, Where(deled[0].domain), j, p)
      ensures forall d: Option<string>, k: nat, q: Proxy ::
                Has(lk2prx, d2lk2prx, d, k, q)
                <==> HasAdded(old(lk2prx), old(d2lk2prx), added, key, p, d, k, q)
                     && !(gone == Some(k) && d == Where(deled[0].domain) && q == p)
    {
      isChanged, gone := false, None;
      if added != [] && added[0].name == "*" {
        if key.Some? {
          AddProxy(added[0].domain, key.value, p);
          isChanged := true;
        }
      }
      assert forall d: Option<string>, k: nat, q: Proxy ::
          Has(lk2prx, d2lk2prx, d, k, q) <==> HasAdded(old(lk2prx), old(d2lk2prx), added, key, p, d, k, q);
      if deled != [] && deled[0].name == "*" {
        var locationKey := DropProxy(deled[0], p);
        gone := locationKey;
        if locationKey.Some? {
          isChanged := true;
        }
      }
    }

    /** Delivers an event to the live proxies registered for the star and for its domain under its key, each once
        per registration, and drops each dead one met under the lowest key it has in that map. */
    method Dispatch(domain: string, key: Option<nat>, live: set<Proxy>)
      returns (byStar: seq<Proxy>, byDomain: seq<Proxy>)
      requires Valid()
      modifies this
      ensures Valid()
      ensures forall p :: p in byStar <==> key.Some? && Has(old(lk2prx), old(d2lk2prx), None, key.value, p) && p in live
      ensures forall p :: p in byDomain <==>
                key.Some? && Has(old(lk2prx), old(d2lk2prx), Some(domain), key.value, p) && p in live
      ensures forall i, j | 0 <= i < j < |byStar| :: byStar[i] != byStar[j]
      ensures forall i, j | 0 <= i < j < |byDomain| :: byDomain[i] != byDomain[j]
      ensures AfterDispatch(old(lk2prx), old(d2lk2prx), lk2prx, d2lk2prx, domain, key, live)
    {
      byStar, byDomain := [], [];
      if lk2prx == map[] && d2lk2prx == map[] {
        return;
      }
      if key.None? {
        return;
      }
      var dead1, dead2 := {}, {};
      if key.value in lk2prx {
        byStar, dead1 := Deliver(lk2prx[key.value], live);
      }
      if domain in d2lk2prx && key.value in d2lk2prx[domain] {
        byDomain, dead2 := Deliver(d2lk2prx[domain][key.value], live);
      }
      ghost var lk, d2 := lk2prx, d2lk2prx;
      if dead1 != {} {
        lk2prx := RemoveAll(lk2prx, dead1);
      }
      if dead2 != {} {
        d2lk2prx := RemoveAllOf(d2lk2prx, dead2, domain);
      }
      DispatchEffect(lk, d2, lk2prx, d2lk2prx, domain, key.value, live, dead1, dead2);
    }
  }

  /** A proxy registered under two keys: when it is dead, the dispatch that meets it under the higher key
      drops the entry under the lower one, which was not met, and leaves the one that was. */
  method DropsAnotherEntry(p: Proxy, low: nat, high: nat) returns (t: TypeMap)
    requires low < high
    ensures fresh(t) && forall d: Option<string>, k: nat, q: Proxy ::
              Has(t.lk2prx, t.d2lk2prx, d, k, q) <==> d == None && k == high && q == p
  {
    t := new TypeMap();
    var all := [EventType("*", "*")];
    var _, _ := t.TaUpdate(all, [], p, Some(low));
    var _, _ := t.TaUpdate(all, [], p, Some(high));
    assert forall d: Option<string>, k: nat, q: Proxy ::
        Has(t.lk2prx, t.d2lk2prx, d, k, q) <==> d == None && k in {low, high} && q == p;
    ghost var lk, d2 := t.lk2prx, t.d2lk2prx;
    var _, _ := t.Dispatch("D", Some(high), {});
    forall d: Option<string>, k: nat, q: Proxy
      ensures DroppedAt(lk, d2, "D", Some(high), {}, d, k, q) <==> d == None && k == low && q == p
    {
      assert Has(lk, d2, None, low, p);
    }
  }

  /** What an update registers a dispatch finds: a live proxy is called for the star if it was registered there
      under the key of the event or the first added type is the star, and for the domain likewise. */
  method Registered(t: TypeMap, added: seq<EventType>, p: Proxy, domain: string, key: nat, live: set<Proxy>)
    returns (byStar: seq<Proxy>, byDomain: seq<Proxy>)
    requires t.Valid() && p in live && domain != "*"
    modifies t
    ensures p in byStar
            <==> (key in old(t.lk2prx) && p in old(t.lk2prx)[key]) || (added != [] && added[0] == EventType("*", "*"))
    ensures var d := old(t.d2lk2prx);
            p in byDomain
            <==> (domain in d && key in d[domain] && p in d[domain][key])
                 || (added != [] && added[0] == EventType(domain, "*"))
  {
    var _, _ := t.TaUpdate(added, [], p, Some(key));
    byStar, byDomain := t.Dispatch(domain, Some(key), live);
  }

  /** A proxy registered under one key below a domain is not called for it any more once the first deleted type
      is that domain's, and is called as before otherwise. */
  method Unregistered(t: TypeMap, deled: seq<EventType>, p: Proxy, domain: string, key: nat, live: set<Proxy>)
    returns (byStar: seq<Proxy>, byDomain: seq<Proxy>)
    requires t.Valid() && p in live && domain != "*"
    requires forall k: nat :: Has(t.lk2prx, t.d2lk2prx, Some(domain), k, p) <==> k == key
    modifies t
    ensures p in byDomain <==> deled == [] || deled[0] != EventType(domain, "*")
  {
    ghost var lk, d2 := t.lk2prx, t.d2lk2prx;
    var _, gone := t.TaUpdate([], deled, p, Some(key));
    if deled != [] && deled[0] == EventType(domain, "*") {
      assert HasAdded(lk, d2, [], Some(key), p, Where(deled[0].domain), key, p);
      assert gone.Some? && HasAdded(lk, d2, [], Some(key), p, Where(deled[0].domain), gone.value, p);
    } else {
      assert Has(lk, d2, Some(domain), key, p);
    }
    byStar, byDomain := t.Dispatch(domain, Some(key), live);
  }
}
