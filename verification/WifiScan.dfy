/** The list of scanned networks: sorted by signal strength, without duplicates, filtered by quality. */
module WifiScan {

  /** Signal strength in dBm as a percentage. */
  function Quality(rssi: int): (q: int)
    ensures 0 <= q <= 100
  {
    if rssi <= -100 then 0 else if rssi >= -50 then 100 else 2 * (rssi + 100)
  }

  lemma QualityMonotone(a: int, b: int)
    requires a <= b
    ensures Quality(a) <= Quality(b)
  {
  }

  /** No quality up to -100 dBm, full quality from -50 dBm on, and two points for each dBm between. */
  lemma QualityScale(rssi: int)
    ensures rssi <= -100 ==> Quality(rssi) == 0
    ensures rssi >= -50 ==> Quality(rssi) == 100
    ensures -100 <= rssi < -50 ==> Quality(rssi + 1) == Quality(rssi) + 2
  {
  }

  /** The filter in dBm: two points above -100 dBm for each dBm. */
  predicate Above(q: int, rssi: int) {
    2 * (rssi + 100) > q
  }

  /** The quality filter; -1 switches it off. */
  predicate Passes(minimumQuality: int, rssi: int) {
    minimumQuality == -1 || minimumQuality < Quality(rssi)
  }

  /** What the filter lets through, in dBm; everything passes a negative minimum, nothing one of 100. */
  lemma PassesAbove(minimumQuality: int, rssi: int)
    ensures 0 <= minimumQuality < 100 ==> (Passes(minimumQuality, rssi) <==> Above(minimumQuality, rssi))
    ensures minimumQuality < 0 ==> Passes(minimumQuality, rssi)
    ensures minimumQuality >= 100 ==> !Passes(minimumQuality, rssi)
  {
  }

  /** One scanned access point. */
  datatype Network = Network(ssid: string, rssi: int)

  /** Indices into the scan without repetition: with as many entries as networks, a permutation. */
  ghost predicate Selection(s: seq<int>, n: int) {
    && (forall i :: 0 <= i < |s| ==> 0 <= s[i] < n)
    && (forall i, j :: 0 <= i < j < |s| ==> s[i] != s[j])
  }

  ghost predicate Descending(s: seq<int>, nets: seq<Network>)
    requires Selection(s, |nets|)
  {
    forall i, j :: 0 <= i < j < |s| ==> nets[s[i]].rssi >= nets[s[j]].rssi
  }

  /** A selection of all n indices misses none. */
  lemma {:induction false} AllSelected(s: seq<int>, n: nat, k: int)
    requires Selection(s, n) && |s| == n && 0 <= k < n
    ensures k in s
    decreases n
  {
    // remove the largest index from the selection
    if n - 1 in s {
      var i :| 0 <= i < n && s[i] == n - 1;
      if k != n - 1 {
        var t := s[..i] + s[i + 1..];
        forall j | 0 <= j < |t| ensures 0 <= t[j] < n - 1 {
          assert t[j] == if j < i then s[j] else s[j + 1];
        }
        AllSelected(t, n - 1, k);
      }
    } else {
      TooMany(s, n - 1);
    }
  }

  lemma {:induction false} TooMany(s: seq<int>, n: nat)
    requires Selection(s, n)
    ensures |s| <= n
    decreases n
  {
    if s != [] {
      if n - 1 in s {
        var i :| 0 <= i < |s| && s[i] == n - 1;
        var t := s[..i] + s[i + 1..];
        forall j | 0 <= j < |t| ensures 0 <= t[j] < n - 1 {
          assert t[j] == if j < i then s[j] else s[j + 1];
        }
        TooMany(t, n - 1);
      } else if n > 0 {
        TooMany(s, n - 1);
      }
    }
  }

  // ---- sorting -----------------------------------------------------------------------------

  /** The first i entries are in place: none is weaker than any entry after it. */
  ghost predicate InPlace(s: seq<int>, nets: seq<Network>, i: int)
    requires Selection(s, |nets|)
  {
    forall a, b :: 0 <= a < i && a < b < |s| ==> nets[s[a]].rssi >= nets[s[b]].rssi
  }

  /** Entry i is not weaker than those after it and before j. */
  ghost predicate StrongestSoFar(s: seq<int>, nets: seq<Network>, i: int, j: int)
    requires Selection(s, |nets|) && 0 <= i < |s| && j <= |s|
  {
    forall b :: i < b < j ==> nets[s[i]].rssi >= nets[s[b]].rssi
  }

  lemma Exchange(s: seq<int>, t: seq<int>, nets: seq<Network>, i: int, j: int)
    requires Selection(s, |nets|) && 0 <= i < j < |s| && t == s[i := s[j]][j := s[i]]
    requires InPlace(s, nets, i) && StrongestSoFar(s, nets, i, j) && nets[s[j]].rssi > nets[s[i]].rssi
    ensures Selection(t, |nets|) && InPlace(t, nets, i) && StrongestSoFar(t, nets, i, j + 1)
  {
  }

  method SortByRssi(indices: array<int>, nets: seq<Network>)
    requires indices.Length == |nets| && Selection(indices[..], |nets|)
    modifies indices
    ensures Selection(indices[..], |nets|) && Descending(indices[..], nets)
  {
    hide InPlace, StrongestSoFar, Descending;
    var n := |nets|;
    NothingPlaced(indices[..], nets);
    for i := 0 to n
      invariant Selection(indices[..], n) && InPlace(indices[..], nets, i)
    {
      FirstSeen(indices[..], nets, i);
      for j := i + 1 to n
        invariant Selection(indices[..], n) && InPlace(indices[..], nets, i) && StrongestSoFar(indices[..], nets, i, j)
      {
        ghost var s := indices[..];
        if nets[indices[j]].rssi > nets[indices[i]].rssi {
          indices[i], indices[j] := indices[j], indices[i];
          Exchange(s, indices[..], nets, i, j);
        } else {
          NoExchange(s, nets, i, j);
        }
      }
      NextPlaced(indices[..], nets, i);
    }
    AllPlaced(indices[..], nets);
  }

  lemma NothingPlaced(s: seq<int>, nets: seq<Network>)
    requires Selection(s, |nets|)
    ensures InPlace(s, nets, 0)
  {
  }

  lemma FirstSeen(s: seq<int>, nets: seq<Network>, i: int)
    requires Selection(s, |nets|) && 0 <= i < |s|
    ensures StrongestSoFar(s, nets, i, i + 1)
  {
  }

  lemma NoExchange(s: seq<int>, nets: seq<Network>, i: int, j: int)
    requires Selection(s, |nets|) && 0 <= i < j < |s| && StrongestSoFar(s, nets, i, j)
    requires nets[s[j]].rssi <= nets[s[i]].rssi
    ensures StrongestSoFar(s, nets, i, j + 1)
  {
  }

  lemma NextPlaced(s: seq<int>, nets: seq<Network>, i: int)
    requires Selection(s, |nets|) && 0 <= i < |s| && InPlace(s, nets, i) && StrongestSoFar(s, nets, i, |s|)
    ensures InPlace(s, nets, i + 1)
  {
  }

  lemma AllPlaced(s: seq<int>, nets: seq<Network>)
    requires Selection(s, |nets|) && InPlace(s, nets, |s|)
    ensures Descending(s, nets)
  {
  }

  // ---- duplicates --------------------------------------------------------------------------

  /** An entry before position k of the sorted list has the same name. */
  predicate Repeated(s: seq<int>, nets: seq<Network>, upto: int, k: int)
    requires 0 <= k < |s| && forall i :: 0 <= i < |s| ==> 0 <= s[i] < |nets|
  {
    exists m :: 0 <= m < upto && m < k && nets[s[m]].ssid == nets[s[k]].ssid
  }

  /** The name asked for with index -1 is whatever the driver returns for it. */
  function Name(nets: seq<Network>, index: int, stray: string): string {
    if 0 <= index < |nets| then nets[index].ssid else stray
  }

  /** Every entry with an earlier entry of the same name becomes -1; the others stay. */
  method RemoveDuplicates(indices: array<int>, nets: seq<Network>, stray: string)
    requires Selection(indices[..], |nets|)
    modifies indices
    ensures forall k :: 0 <= k < indices.Length ==>
              indices[k] == if Repeated(old(indices[..]), nets, indices.Length, k) then -1 else old(indices[k])
  {
    var n := indices.Length;
    ghost var s := indices[..];
    for i := 0 to n
      invariant forall k :: 0 <= k < n ==> indices[k] == if Repeated(s, nets, i, k) then -1 else s[k]
    {
      if indices[i] != -1 {
        var cssid := Name(nets, indices[i], stray);
        for j := i + 1 to n
          invariant forall k :: 0 <= k < n ==>
            indices[k] == if Repeated(s, nets, i, k) || (i < k < j && nets[s[k]].ssid == cssid) then -1 else s[k]
        {
          if cssid == Name(nets, indices[j], stray) {
            indices[j] := -1;
          }
        }
      }
      forall k | 0 <= k < n ensures indices[k] == if Repeated(s, nets, i + 1, k) then -1 else s[k] {
        OneMore(s, nets, i, k);
      }
    }
  }

  lemma OneMore(s: seq<int>, nets: seq<Network>, i: int, k: int)
    requires 0 <= k < |s| && 0 <= i < |s| && forall j :: 0 <= j < |s| ==> 0 <= s[j] < |nets|
    ensures Repeated(s, nets, i + 1, k) <==> Repeated(s, nets, i, k) || (i < k && nets[s[i]].ssid == nets[s[k]].ssid)
    ensures Repeated(s, nets, i, i) && i < k && nets[s[i]].ssid == nets[s[k]].ssid ==> Repeated(s, nets, i, k)
  {
  }

  // ---- the page ----------------------------------------------------------------------------

  /** An entry is shown: not a duplicate, good enough, and with a name. */
  predicate Shown(nets: seq<Network>, minimumQuality: int, index: int) {
    0 <= index < |nets| && Passes(minimumQuality, nets[index].rssi) && nets[index].ssid != ""
  }

  function Listed(s: seq<int>, nets: seq<Network>, minimumQuality: int): seq<int> {
    if s == [] then []
    else Listed(s[..|s| - 1], nets, minimumQuality)
         + (if Shown(nets, minimumQuality, s[|s| - 1]) then [s[|s| - 1]] else [])
  }

  /** Each listed entry comes from its own position in the list, later ones from later positions. */
  ghost predicate Places(from: seq<int>, s: seq<int>, nets: seq<Network>, q: int, page: seq<int>) {
    && |from| == |page|
    && (forall i :: 0 <= i < |page| ==> 0 <= from[i] < |s| && s[from[i]] == page[i] && Shown(nets, q, page[i]))
    && (forall i, j :: 0 <= i < j < |page| ==> from[i] < from[j])
  }

  lemma PlacesLonger(from: seq<int>, s: seq<int>, nets: seq<Network>, q: int, page: seq<int>)
    requires s != [] && Places(from, s[..|s| - 1], nets, q, page)
    ensures Places(from, s, nets, q, page)
    ensures Shown(nets, q, s[|s| - 1]) ==> Places(from + [|s| - 1], s, nets, q, page + [s[|s| - 1]])
  {
    hide Shown;
  }

  /** The page lists the shown entries, in order. */
  lemma {:induction false} ListedFrom(s: seq<int>, nets: seq<Network>, q: int) returns (from: seq<int>)
    ensures Places(from, s, nets, q, Listed(s, nets, q))
  {
    hide Places, Shown;
    if s == [] {
      from := NoPlaces(s, nets, q);
    } else {
      from := ListedFrom(s[..|s| - 1], nets, q);
      PlacesLonger(from, s, nets, q, Listed(s[..|s| - 1], nets, q));
      if Shown(nets, q, s[|s| - 1]) {
        from := from + [|s| - 1];
      }
      assert Listed(s[..|s| - 1], nets, q) + [] == Listed(s[..|s| - 1], nets, q);
    }
  }

  lemma NoPlaces(s: seq<int>, nets: seq<Network>, q: int) returns (from: seq<int>)
    ensures Places(from, s, nets, q, [])
  {
    from := [];
  }

  lemma {:induction false} ListedAll(s: seq<int>, nets: seq<Network>, q: int, k: int)
    requires 0 <= k < |s| && Shown(nets, q, s[k])
    ensures s[k] in Listed(s, nets, q)
  {
    if k < |s| - 1 {
      ListedAll(s[..|s| - 1], nets, q, k);
    }
  }

  /** The first entry with a given name is never a duplicate. */
  lemma {:induction false} FirstOfName(s: seq<int>, nets: seq<Network>, k: int) returns (f: int)
    requires 0 <= k < |s| && forall i :: 0 <= i < |s| ==> 0 <= s[i] < |nets|
    ensures 0 <= f <= k && nets[s[f]].ssid == nets[s[k]].ssid && !Repeated(s, nets, |s|, f)
    decreases k
  {
    if Repeated(s, nets, |s|, k) {
      var m :| 0 <= m < |s| && m < k && nets[s[m]].ssid == nets[s[k]].ssid;
      f := FirstOfName(s, nets, m);
    } else {
      f := k;
    }
  }

  function At(nets: seq<Network>, k: int): Network {
    if 0 <= k < |nets| then nets[k] else Network("", 0)
  }

  /** Every entry is worth showing, no network appears twice, and the strongest come first. */
  ghost predicate Ordered(page: seq<int>, nets: seq<Network>, q: int) {
    && (forall i :: 0 <= i < |page| ==> Shown(nets, q, page[i]))
    && (forall i, j :: 0 <= i < j < |page| ==> page[i] != page[j] && At(nets, page[i]).rssi >= At(nets, page[j]).rssi)
  }

  /** Each name appears once, for its strongest access point. */
  ghost predicate StrongestOnce(page: seq<int>, nets: seq<Network>) {
    && (forall i, j :: 0 <= i < j < |page| ==> At(nets, page[i]).ssid != At(nets, page[j]).ssid)
    && (forall k, m :: k in page && 0 <= m < |nets| && nets[m].ssid == At(nets, k).ssid ==>
          nets[m].rssi <= At(nets, k).rssi)
  }

  ghost predicate NameOnPage(page: seq<int>, nets: seq<Network>, name: string) {
    exists k :: k in page && At(nets, k).ssid == name
  }

  /** Some access point of that name is good enough. */
  ghost predicate NamePasses(nets: seq<Network>, q: int, name: string) {
    exists m :: 0 <= m < |nets| && nets[m].ssid == name && Passes(q, nets[m].rssi)
  }

  /** The list after the optional removal of duplicates. */
  ghost predicate Deduplicated(s: seq<int>, t: seq<int>, nets: seq<Network>, removed: bool) {
    && Selection(s, |nets|) && |s| == |t| == |nets| && Descending(s, nets)
    && forall k :: 0 <= k < |s| ==> t[k] == if removed && Repeated(s, nets, |s|, k) then -1 else s[k]
  }

  lemma PageOrdered(s: seq<int>, t: seq<int>, nets: seq<Network>, q: int, removed: bool)
    requires Deduplicated(s, t, nets, removed)
    ensures Ordered(Listed(t, nets, q), nets, q)
  {
    hide Repeated;
    var page := Listed(t, nets, q);
    var from := ListedFrom(t, nets, q);
    forall i, j | 0 <= i < j < |page|
      ensures page[i] != page[j] && At(nets, page[i]).rssi >= At(nets, page[j]).rssi
    {
      assert from[i] < from[j] && page[i] == s[from[i]] && page[j] == s[from[j]];
    }
  }

  lemma PageStrongest(s: seq<int>, t: seq<int>, nets: seq<Network>, q: int)
    requires Deduplicated(s, t, nets, true)
    ensures StrongestOnce(Listed(t, nets, q), nets)
  {
    hide Repeated, Deduplicated, Places, Shown;
    var page := Listed(t, nets, q);
    var from := ListedFrom(t, nets, q);
    forall i, j | 0 <= i < j < |page| ensures At(nets, page[i]).ssid != At(nets, page[j]).ssid {
      NamesDiffer(s, t, nets, q, page, from, i, j);
    }
    forall k, m | k in page && 0 <= m < |nets| && nets[m].ssid == At(nets, k).ssid
      ensures nets[m].rssi <= At(nets, k).rssi
    {
      var i :| 0 <= i < |page| && page[i] == k;
      NoneStronger(s, t, nets, q, page, from, i, m);
    }
  }

  lemma NamesDiffer(s: seq<int>, t: seq<int>, nets: seq<Network>, q: int,
                    page: seq<int>, from: seq<int>, i: int, j: int)
    requires Deduplicated(s, t, nets, true) && Places(from, t, nets, q, page) && 0 <= i < j < |page|
    ensures At(nets, page[i]).ssid != At(nets, page[j]).ssid
  {
    assert from[i] < from[j] && !Repeated(s, nets, |s|, from[j]);
  }

  lemma NoneStronger(s: seq<int>, t: seq<int>, nets: seq<Network>, q: int,
                     page: seq<int>, from: seq<int>, i: int, m: int)
    requires Deduplicated(s, t, nets, true) && Places(from, t, nets, q, page) && 0 <= i < |page|
    requires 0 <= m < |nets| && nets[m].ssid == At(nets, page[i]).ssid
    ensures nets[m].rssi <= At(nets, page[i]).rssi
  {
    AllSelected(s, |nets|, m);
    var p :| 0 <= p < |s| && s[p] == m;
    assert !Repeated(s, nets, |s|, from[i]);
    assert from[i] <= p;
  }

  /** With duplicates removed, a name is listed exactly when it is not empty and some access point of that
      name is good enough. */
  lemma PageNames(s: seq<int>, t: seq<int>, nets: seq<Network>, q: int, name: string)
    requires Deduplicated(s, t, nets, true)
    ensures NameOnPage(Listed(t, nets, q), nets, name) <==> name != "" && NamePasses(nets, q, name)
  {
    var page := Listed(t, nets, q);
    var from := ListedFrom(t, nets, q);
    if NameOnPage(page, nets, name) {
      var k :| k in page && At(nets, k).ssid == name;
      var i :| 0 <= i < |page| && page[i] == k;
      assert Shown(nets, q, page[i]);
    }
    if name != "" && NamePasses(nets, q, name) {
      var m :| 0 <= m < |nets| && nets[m].ssid == name && Passes(q, nets[m].rssi);
      AllSelected(s, |nets|, m);
      var k :| 0 <= k < |s| && s[k] == m;
      var f := FirstOfName(s, nets, k);
      QualityMonotone(nets[m].rssi, nets[s[f]].rssi);
      ListedAll(t, nets, q, f);
      assert t[f] in page && At(nets, t[f]).ssid == name;
    }
  }

  /** With duplicates kept, the page holds every network worth showing. */
  lemma PageAll(s: seq<int>, t: seq<int>, nets: seq<Network>, q: int, k: int)
    requires Deduplicated(s, t, nets, false) && Shown(nets, q, k)
    ensures k in Listed(t, nets, q)
  {
    AllSelected(s, |nets|, k);
    var i :| 0 <= i < |s| && s[i] == k;
    ListedAll(t, nets, q, i);
  }

  /** Some access point of that name is strong enough. */
  ghost predicate NameAbove(nets: seq<Network>, q: int, name: string) {
    exists m :: 0 <= m < |nets| && nets[m].ssid == name && Above(q, nets[m].rssi)
  }

  /** The networks listed, in dBm. */
  ghost predicate ListedAbove(page: seq<int>, nets: seq<Network>, q: int, removed: bool) {
    if removed then forall name :: NameOnPage(page, nets, name) <==> name != "" && NameAbove(nets, q, name)
    else forall k :: k in page <==> 0 <= k < |nets| && nets[k].ssid != "" && Above(q, nets[k].rssi)
  }

  lemma PageAbove(page: seq<int>, nets: seq<Network>, q: int, removed: bool)
    requires 0 <= q < 100 && Ordered(page, nets, q)
    requires !removed ==> forall k :: Shown(nets, q, k) ==> k in page
    requires removed ==> forall name :: NameOnPage(page, nets, name) <==> name != "" && NamePasses(nets, q, name)
    ensures ListedAbove(page, nets, q, removed)
  {
    hide Passes, Above, NameOnPage;
    forall rssi ensures Passes(q, rssi) <==> Above(q, rssi) {
      PassesAbove(q, rssi);
    }
    if removed {
      forall name: string ensures NamePasses(nets, q, name) <==> NameAbove(nets, q, name) {
      }
    } else {
      forall k ensures k in page <==> Shown(nets, q, k) {
      }
    }
  }

  /** The whole computation behind the page: indices, sort, optional removal of duplicates, list. */
  method GetScanItemOut(nets: seq<Network>, removeDuplicateAPs: bool, minimumQuality: int, stray: string)
    returns (page: seq<int>)
    ensures Ordered(page, nets, minimumQuality)
    ensures !removeDuplicateAPs ==> forall k :: Shown(nets, minimumQuality, k) ==> k in page
    ensures removeDuplicateAPs ==> StrongestOnce(page, nets)
    ensures removeDuplicateAPs ==>
              forall name :: NameOnPage(page, nets, name) <==> name != "" && NamePasses(nets, minimumQuality, name)
    ensures 0 <= minimumQuality < 100 ==> ListedAbove(page, nets, minimumQuality, removeDuplicateAPs)
  {
    hide ListedAbove, Listed, Ordered, StrongestOnce, NameOnPage, NamePasses, Descending;
    var n := |nets|;
    var indices := new int[n](i => i);
    SortByRssi(indices, nets);
    ghost var s := indices[..];
    if removeDuplicateAPs {
      RemoveDuplicates(indices, nets, stray);
    }
    ghost var t := indices[..];
    page := ListItems(indices, nets, minimumQuality);
    PageOrdered(s, t, nets, minimumQuality, removeDuplicateAPs);
    if removeDuplicateAPs {
      PageStrongest(s, t, nets, minimumQuality);
      forall name: string
        ensures NameOnPage(page, nets, name) <==> name != "" && NamePasses(nets, minimumQuality, name)
      {
        PageNames(s, t, nets, minimumQuality, name);
      }
    } else {
      forall k | Shown(nets, minimumQuality, k) ensures k in page {
        PageAll(s, t, nets, minimumQuality, k);
      }
    }
    if 0 <= minimumQuality < 100 {
      PageAbove(page, nets, minimumQuality, removeDuplicateAPs);
    }
  }

  /** The display loop: skip duplicates, filter by quality, skip empty names. */
  method ListItems(indices: array<int>, nets: seq<Network>, minimumQuality: int) returns (page: seq<int>)
    requires forall i :: 0 <= i < indices.Length ==> indices[i] == -1 || 0 <= indices[i] < |nets|
    ensures page == Listed(indices[..], nets, minimumQuality)
  {
    page := [];
    for i := 0 to indices.Length
      invariant page == Listed(indices[..i], nets, minimumQuality)
    {
      assert indices[..i + 1][..i] == indices[..i];
      if indices[i] != -1 {
        if minimumQuality == -1 || minimumQuality < Quality(nets[indices[i]].rssi) {
          if nets[indices[i]].ssid != "" {
            page := page + [indices[i]];
          }
        }
      }
    }
    assert indices[..indices.Length] == indices[..];
  }
}
