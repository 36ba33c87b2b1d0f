/** Names for discovered devices (crates/nimon-edge/src/devices.rs:114-159, actor/device_manager.rs:665-675). */
module DeviceIdentity {
  import opened Basics

  datatype Discovered = Discovered(alias: Option<string>, serial: string, resource: Option<string>, product: string)

  function NonEmpty(s: Option<string>): Option<string> {
    if s.None? || Trim(s.value) == "" then None else Some(Trim(s.value))
  }

  /** Alias, serial number or resource name, whichever is there first. */
  function OwnName(d: Discovered): Option<string> {
    if NonEmpty(d.alias).Some? then NonEmpty(d.alias)
    else if NonEmpty(Some(d.serial)).Some? then NonEmpty(Some(d.serial))
    else NonEmpty(d.resource)
  }

  /** What the key depends on. */
  datatype Identity = Identity(name: Option<string>, product: string)

  function IdentityOf(d: Discovered): Identity { Identity(OwnName(d), d.product) }

  function Identities(devices: seq<Discovered>): (r: seq<Identity>)
    ensures |r| == |devices| && forall i :: 0 <= i < |r| ==> r[i] == IdentityOf(devices[i])
  {
    seq(|devices|, i requires 0 <= i < |devices| => IdentityOf(devices[i]))
  }

  predicate Nameless(d: Identity, product: string) { d.name.None? && d.product == product }

  function Numbered(product: string, n: nat): string { product + ['#'] + Decimal(n) }

  /** Neither half of `product#n` is ambiguous, whatever the product is called. */
  lemma NumberedInjective(p: string, m: nat, q: string, n: nat)
    requires Numbered(p, m) == Numbered(q, n)
    ensures p == q && m == n
  {
    SplitAtLast(p, q, '#', Decimal(m), Decimal(n));
    DecimalInjective(m, n);
  }

  /** How many devices of the product have no name of their own. */
  function Count(devices: seq<Identity>, product: string): nat {
    if devices == [] then 0
    else Count(devices[..|devices| - 1], product) + if Nameless(devices[|devices| - 1], product) then 1 else 0
  }

  function Key(devices: seq<Identity>, i: nat): string
    requires i < |devices|
  {
    var d := devices[i];
    if d.name.Some? then d.name.value else Numbered(d.product, Count(devices[..i], d.product) + 1)
  }

  function Keys(devices: seq<Identity>): (keys: seq<string>)
    ensures |keys| == |devices|
    ensures forall i :: 0 <= i < |devices| ==> keys[i] == Key(devices, i)
  {
    seq(|devices|, i requires 0 <= i < |devices| => Key(devices, i))
  }

  // ------------------------------------------------------------------ the sweep

  /** The buffers a sweep reuses. */
  class Buffers {
    var counts: map<string, nat>
    var key: string

    constructor ()
      ensures counts == map[] && key == ""
    {
      counts, key := map[], "";
    }

    /** The counters of a sweep that has come past `devices`. */
    ghost predicate Counted(devices: seq<Identity>)
      reads this
    {
      && (forall p | p in counts :: counts[p] == Count(devices, p))
      && (forall p | p !in counts :: Count(devices, p) == 0)
    }

    method IdentityKey(d: Discovered, ghost devices: seq<Identity>, ghost i: nat)
      requires i < |devices| && IdentityOf(d) == devices[i] && Counted(devices[..i])
      modifies this
      ensures Counted(devices[..i + 1])
      ensures key == Key(devices, i)
      ensures if d.alias.Some? && !Blank(d.alias.value) then key == Trim(d.alias.value)
              else if !Blank(d.serial) then key == Trim(d.serial)
              else if d.resource.Some? && !Blank(d.resource.value) then key == Trim(d.resource.value)
              else key == Numbered(d.product, Count(devices[..i], d.product) + 1)
    {
      assert devices[..i + 1][..i] == devices[..i];
      if NonEmpty(d.alias).Some? {
        key := NonEmpty(d.alias).value;
      } else if NonEmpty(Some(d.serial)).Some? {
        key := NonEmpty(Some(d.serial)).value;
      } else if NonEmpty(d.resource).Some? {
        key := NonEmpty(d.resource).value;
      } else {
        var n := 1;
        if d.product in counts {
          n := counts[d.product] + 1;
        }
        counts := counts[d.product := n];
        key := d.product + ['#'] + Decimal(n);
      }
    }

    /** One sweep, whatever the last one left in the buffers. */
    method Sweep(devices: seq<Discovered>) returns (keys: seq<string>)
      modifies this
      ensures keys == Keys(Identities(devices))
      ensures Counted(Identities(devices))
    {
      ghost var all := Identities(devices);
      counts := map[];
      keys := [];
      for i := 0 to |devices|
        invariant |keys| == i && forall j :: 0 <= j < i ==> keys[j] == Key(all, j)
        invariant Counted(all[..i])
      {
        IdentityKey(devices[i], all, i);
        keys := keys + [key];
      }
      assert all[..|devices|] == all;
    }
  }

  // ------------------------------------------------------------------ the key in terms of the fields

  predicate Blank(s: string) { Trim(s) == "" }

  /** Neither alias nor serial number nor resource name says anything. */
  predicate Anonymous(d: Discovered) {
    && (d.alias.Some? ==> Blank(d.alias.value)) && Blank(d.serial) && (d.resource.Some? ==> Blank(d.resource.value))
  }

  /** How many devices of the product are anonymous. */
  function AnonymousCount(devices: seq<Discovered>, product: string): nat {
    if devices == [] then 0
    else
      var last := devices[|devices| - 1];
      AnonymousCount(devices[..|devices| - 1], product) + if Anonymous(last) && last.product == product then 1 else 0
  }

  lemma {:induction false} CountsAnonymous(devices: seq<Discovered>, n: nat, product: string)
    requires n <= |devices|
    ensures Count(Identities(devices)[..n], product) == AnonymousCount(devices[..n], product)
  {
    if n > 0 {
      CountsAnonymous(devices, n - 1, product);
      assert devices[..n][..n - 1] == devices[..n - 1];
      assert Identities(devices)[..n][..n - 1] == Identities(devices)[..n - 1];
    }
  }

  /**
   The key of a device is its alias; without one its serial number; without either its resource name;
   all without the space around them, and passed over if there is nothing else. Without any of them it
   is the product with the number of the device among the anonymous ones.
   */
  lemma KeyOfFields(devices: seq<Discovered>, i: nat)
    requires i < |devices|
    ensures var d, key := devices[i], Keys(Identities(devices))[i];
            if d.alias.Some? && !Blank(d.alias.value) then key == Trim(d.alias.value)
            else if !Blank(d.serial) then key == Trim(d.serial)
            else if d.resource.Some? && !Blank(d.resource.value) then key == Trim(d.resource.value)
            else key == d.product + "#" + Decimal(AnonymousCount(devices[..i], d.product) + 1)
  {
    CountsAnonymous(devices, i, devices[i].product);
  }

  // ------------------------------------------------------------------ numbers of the nameless

  lemma {:induction false} CountGrows(devices: seq<Identity>, i: nat, j: nat, product: string)
    requires i <= j <= |devices|
    ensures Count(devices[..i], product) <= Count(devices[..j], product)
    ensures i < j && Nameless(devices[i], product) ==> Count(devices[..i], product) < Count(devices[..j], product)
  {
    if i < j {
      CountGrows(devices, i, j - 1, product);
      assert devices[..j][..j - 1] == devices[..j - 1];
    }
  }

  /** In one sweep no two devices without a name get the same key, however they are mixed with the others. */
  lemma NamelessDistinct(devices: seq<Identity>, i: nat, j: nat)
    requires i < j < |devices| && devices[i].name.None? && devices[j].name.None?
    ensures Keys(devices)[i] != Keys(devices)[j]
  {
    var p, q := devices[i].product, devices[j].product;
    var m, n := Count(devices[..i], p) + 1, Count(devices[..j], q) + 1;
    CountGrows(devices, i, j, p);
    assert p != q || m != n;
    if Numbered(p, m) == Numbered(q, n) {
      NumberedInjective(p, m, q, n);
    }
    assert Key(devices, i) == Numbered(p, m) && Key(devices, j) == Numbered(q, n);
  }

  ghost predicate HasNumber(devices: seq<Identity>, i: nat, product: string, n: nat)
    requires i < |devices|
  {
    Nameless(devices[i], product) && Key(devices, i) == Numbered(product, n)
  }

  lemma NumberIff(devices: seq<Identity>, i: nat, product: string, n: nat)
    requires i < |devices|
    ensures HasNumber(devices, i, product, n)
       <==> Nameless(devices[i], product) && Count(devices[..i], product) + 1 == n
  {
    if HasNumber(devices, i, product, n) {
      NumberedInjective(product, Count(devices[..i], product) + 1, product, n);
    }
  }

  /** Where the count passes `n`. */
  lemma {:induction false} Nth(devices: seq<Identity>, product: string, n: nat) returns (i: nat)
    requires 1 <= n <= Count(devices, product)
    ensures i < |devices| && Nameless(devices[i], product) && Count(devices[..i], product) + 1 == n
  {
    var last := |devices| - 1;
    if n <= Count(devices[..last], product) {
      i := Nth(devices[..last], product, n);
      assert devices[..last][..i] == devices[..i];
    } else {
      i := last;
    }
  }

  /** Per product the numbers are exactly 1 to the number of nameless devices, in enumeration order. */
  lemma NumbersInOrder(devices: seq<Identity>, product: string, n: nat)
    ensures 1 <= n <= Count(devices, product) <==> exists i :: 0 <= i < |devices| && HasNumber(devices, i, product, n)
    ensures forall i, j :: 0 <= i < j < |devices| && Nameless(devices[i], product) && Nameless(devices[j], product) ==>
              Count(devices[..i], product) < Count(devices[..j], product)
  {
    if 1 <= n <= Count(devices, product) {
      var i := Nth(devices, product, n);
      NumberIff(devices, i, product, n);
    }
    forall i | 0 <= i < |devices| && HasNumber(devices, i, product, n)
      ensures 1 <= n <= Count(devices, product)
    {
      NumberIff(devices, i, product, n);
      CountGrows(devices, i, |devices|, product);
      assert devices[..|devices|] == devices;
    }
    forall i, j | 0 <= i < j < |devices| && Nameless(devices[i], product) && Nameless(devices[j], product)
      ensures Count(devices[..i], product) < Count(devices[..j], product)
    {
      CountGrows(devices, i, j, product);
    }
  }

  // ------------------------------------------------------------------ which devices share a key

  /** What a device is called after that has a name of its own, but is the number of the nameless one. */
  predicate TakesNumber(devices: seq<Identity>, named: nat, nameless: nat)
    requires named < |devices| && nameless < |devices|
  {
    var p := devices[nameless].product;
    && devices[named].name.Some? && devices[nameless].name.None?
    && devices[named].name.value == Numbered(p, Count(devices[..nameless], p) + 1)
  }

  /** Two devices of one sweep share a key exactly if they go by one name, or one by the number of the other. */
  lemma SameKeyIff(devices: seq<Identity>, i: nat, j: nat)
    requires i < j < |devices|
    ensures Keys(devices)[i] == Keys(devices)[j] <==>
            || (devices[i].name.Some? && devices[i].name == devices[j].name)
            || TakesNumber(devices, i, j) || TakesNumber(devices, j, i)
  {
    if devices[i].name.None? && devices[j].name.None? {
      NamelessDistinct(devices, i, j);
    }
  }

  /** No name is given twice, and none is the number of a nameless device. */
  ghost predicate Unambiguous(devices: seq<Identity>) {
    && (forall i, j :: 0 <= i < j < |devices| && devices[i].name.Some? ==> devices[i].name != devices[j].name)
    && (forall i, p, n: nat | 0 <= i < |devices| && devices[i].name == Some(Numbered(p, n)) ::
          !(1 <= n <= Count(devices, p)))
  }

  /** The keys of a sweep are pairwise distinct exactly if its names are unambiguous in that sense. */
  lemma KeysDistinctIff(devices: seq<Identity>)
    ensures (forall i, j :: 0 <= i < j < |devices| ==> Keys(devices)[i] != Keys(devices)[j]) <==> Unambiguous(devices)
  {
    if Unambiguous(devices) {
      forall i, j | 0 <= i < j < |devices|
        ensures Keys(devices)[i] != Keys(devices)[j]
      {
        SameKeyIff(devices, i, j);
        NumberInUse(devices, i);
        NumberInUse(devices, j);
      }
    }
    if forall i, j :: 0 <= i < j < |devices| ==> Keys(devices)[i] != Keys(devices)[j] {
      forall i, j | 0 <= i < j < |devices| && devices[i].name.Some?
        ensures devices[i].name != devices[j].name
      {
        SameKeyIff(devices, i, j);
      }
      forall i, p, n: nat | 0 <= i < |devices| && devices[i].name == Some(Numbered(p, n))
        ensures !(1 <= n <= Count(devices, p))
      {
        if 1 <= n <= Count(devices, p) {
          var k := Nth(devices, p, n);
          assert TakesNumber(devices, i, k);
          SameKeyIff(devices, if i < k then i else k, if i < k then k else i);
        }
      }
    }
  }

  /** The number of a nameless device is one that is given. */
  lemma NumberInUse(devices: seq<Identity>, i: nat)
    requires i < |devices|
    ensures var p := devices[i].product;
            devices[i].name.None? ==> Count(devices[..i], p) + 1 <= Count(devices, p)
  {
    CountGrows(devices, i, |devices|, devices[i].product);
    assert devices[..|devices|] == devices;
  }

  /** A nameless device keeps its key from one sweep to the next exactly when as many of its kind come before it. */
  lemma KeyStableIff(a: seq<Identity>, i: nat, b: seq<Identity>, j: nat)
    requires i < |a| && j < |b| && a[i] == b[j] && a[i].name.None?
    ensures Key(a, i) == Key(b, j) <==> Count(a[..i], a[i].product) == Count(b[..j], a[i].product)
  {
    var p := a[i].product;
    if Key(a, i) == Key(b, j) {
      NumberedInjective(p, Count(a[..i], p) + 1, p, Count(b[..j], p) + 1);
    }
  }

  // ------------------------------------------------------------------ ids at the hub

  function DeviceId(edge: string, key: string): string { edge + [':'] + key }

  /** Edge `e` with a colon behind it begins the name of edge `f`. */
  predicate Begins(e: string, f: string) { e + [':'] <= f }

  /** The device of the edge with the shorter name is called after the other edge and its device. */
  predicate Takes(e: string, x: string, f: string, y: string) {
    Begins(e, f) && x == f[|e| + 1..] + [':'] + y
  }

  /** The name of an edge is a prefix of its ids, and what follows is its colon and the key. */
  lemma IdParts(e: string, x: string)
    ensures var id := DeviceId(e, x); id[..|e|] == e && id[..|e| + 1] == e + [':'] && id[|e| + 1..] == x
  {
  }

  lemma ShorterTakes(e: string, x: string, f: string, y: string)
    requires |e| < |f|
    ensures DeviceId(e, x) == DeviceId(f, y) <==> Takes(e, x, f, y)
  {
    IdParts(e, x);
    IdParts(f, y);
    if DeviceId(e, x) == DeviceId(f, y) {
      var id := DeviceId(f, y);
      assert id[..|e| + 1] == f[..|e| + 1];
      assert id[|e| + 1..] == f[|e| + 1..] + [':'] + y;
    }
    if Takes(e, x, f, y) {
      assert f == e + [':'] + f[|e| + 1..];
    }
  }

  /** Two devices share an id exactly when they are the same, or one is called after the other and its edge. */
  lemma SameIdIff(e: string, x: string, f: string, y: string)
    ensures DeviceId(e, x) == DeviceId(f, y) <==> (e == f && x == y) || Takes(e, x, f, y) || Takes(f, y, e, x)
  {
    IdParts(e, x);
    IdParts(f, y);
    if |e| < |f| {
      ShorterTakes(e, x, f, y);
    } else if |f| < |e| {
      ShorterTakes(f, y, e, x);
    }
  }

  /** Two edges can produce one id exactly when they are the same, or one with a colon behind it begins the other. */
  lemma EdgesCollideIff(e: string, f: string)
    ensures (exists x, y :: x != "" && y != "" && DeviceId(e, x) == DeviceId(f, y)) <==>
            e == f || Begins(e, f) || Begins(f, e)
  {
    var key := "k";
    if e == f {
      assert DeviceId(e, key) == DeviceId(f, key);
    } else if Begins(e, f) {
      SameIdIff(e, f[|e| + 1..] + [':'] + key, f, key);
    } else if Begins(f, e) {
      SameIdIff(e, key, f, e[|f| + 1..] + [':'] + key);
    } else {
      forall x, y
        ensures DeviceId(e, x) != DeviceId(f, y)
      {
        SameIdIff(e, x, f, y);
      }
    }
  }

  /** Between all other edges, and within one, an id says which device it is; edges without colons are such. */
  lemma DeviceIdInjective(e: string, x: string, f: string, y: string)
    requires !Begins(e, f) && !Begins(f, e)
    ensures DeviceId(e, x) == DeviceId(f, y) <==> e == f && x == y
  {
    SameIdIff(e, x, f, y);
  }

  lemma NoColonBeginsNothing(e: string, f: string)
    requires ':' !in f
    ensures !Begins(e, f)
  {
    assert (e + [':'])[|e|] == ':';
  }

  /** So in one sweep the nameless devices get distinct ids, too. */
  lemma NamelessIdsDistinct(edge: string, devices: seq<Identity>, i: nat, j: nat)
    requires i < j < |devices| && devices[i].name.None? && devices[j].name.None?
    ensures DeviceId(edge, Keys(devices)[i]) != DeviceId(edge, Keys(devices)[j])
  {
    NamelessDistinct(devices, i, j);
    DeviceIdInjective(edge, Keys(devices)[i], edge, Keys(devices)[j]);
  }
}
