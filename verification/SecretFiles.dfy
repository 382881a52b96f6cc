/** Secret files projected into one volume per Secret and one read-only mount per file. */
module SecretFiles {
  import opened Decimal

  datatype File = File(secret: string, key: string, path: string)

  /** A projected key and its path inside the volume. */
  datatype Item = Item(key: string, path: string)

  datatype Volume = Volume(name: string, secret: string, items: seq<Item>, defaultMode: int, optional: bool)

  datatype Mount = Mount(volume: string, mountPath: string, subPath: string, readOnly: bool)

  const FILE_MODE := 0x124 // 0o444

  // ---------------------------------------------------------------- specification

  /** The distinct elements in order of first appearance. */
  function Distinct(xs: seq<string>): (r: seq<string>)
    ensures forall x :: x in r <==> x in xs
    ensures forall i, j :: 0 <= i < j < |r| ==> r[i] != r[j]
  {
    if xs == [] then []
    else
      var last, r := xs[|xs| - 1], Distinct(xs[..|xs| - 1]);
      assert forall x :: x in xs <==> x in xs[..|xs| - 1] || x == last;
      if last in r then r else r + [last]
  }

  function Secrets(files: seq<File>): (r: seq<string>)
    ensures |r| == |files| && forall i :: 0 <= i < |r| ==> r[i] == files[i].secret
  {
    seq(|files|, i requires 0 <= i < |files| => files[i].secret)
  }

  /** The keys the files take from one Secret, in order. */
  function KeysOf(files: seq<File>, secret: string): (r: seq<string>)
    ensures forall k :: k in r <==> exists i :: 0 <= i < |files| && files[i].secret == secret && files[i].key == k
  {
    if files == [] then []
    else
      var last := files[|files| - 1];
      KeysOf(files[..|files| - 1], secret) + if last.secret == secret then [last.key] else []
  }

  lemma {:induction false} UnseenSecretHasNoKeys(files: seq<File>, s: string)
    requires s !in Distinct(Secrets(files))
    ensures KeysOf(files, s) == []
  {
    if files != [] {
      var n := |files| - 1;
      assert Secrets(files)[n] == files[n].secret && Secrets(files)[..n] == Secrets(files[..n]);
      UnseenSecretHasNoKeys(files[..n], s);
    }
  }

  function IndexOf(xs: seq<string>, x: string): (i: nat)
    requires x in xs
    ensures i < |xs| && xs[i] == x
  {
    if xs[0] == x then 0 else 1 + IndexOf(xs[1..], x)
  }

  function ItemPath(n: nat): string { "file-" + Render(n) }
  function VolumeName(n: nat): string { "kobe-file-" + Render(n) }

  function Items(keys: seq<string>): (m: map<string, string>)
    ensures forall k :: k in m <==> k in keys
  {
    map k | k in keys :: ItemPath(IndexOf(keys, k))
  }

  /** The order of an ordered map's keys. */
  predicate Before(a: string, b: string) {
    b != "" && (a == "" || a[0] < b[0] || (a[0] == b[0] && Before(a[1..], b[1..])))
  }

  predicate Increasing(items: seq<Item>) { forall i, j :: 0 <= i < j < |items| ==> Before(items[i].key, items[j].key) }

  /** The items are exactly the map's entries, in key order. */
  predicate Lists(items: seq<Item>, m: map<string, string>) {
    && Increasing(items)
    && (forall x :: x in items ==> x.key in m && m[x.key] == x.path)
    && (forall k :: k in m ==> Item(k, m[k]) in items)
  }

  function ItemsFor(files: seq<File>, secret: string): map<string, string> { Items(Distinct(KeysOf(files, secret))) }

  /** The `n`-th volume of the projection. */
  predicate IsVolume(v: Volume, files: seq<File>, n: nat)
    requires n < |Distinct(Secrets(files))|
  {
    && v.name == VolumeName(n) && v.secret == Distinct(Secrets(files))[n]
    && Lists(v.items, ItemsFor(files, v.secret)) && !v.optional
    && v.defaultMode == 4 * 64 + 4 * 8 + 4
  }

  predicate AreVolumes(volumes: seq<Volume>, files: seq<File>) {
    && |volumes| == |Distinct(Secrets(files))|
    && forall n :: 0 <= n < |volumes| ==> IsVolume(volumes[n], files, n)
  }

  function MountOf(files: seq<File>, i: nat): Mount
    requires i < |files|
  {
    var f := files[i];
    assert f.secret == Secrets(files)[i];
    assert f.key in KeysOf(files, f.secret);
    Mount(VolumeName(IndexOf(Distinct(Secrets(files)), f.secret)), f.path, ItemsFor(files, f.secret)[f.key], true)
  }

  // ---------------------------------------------------------------- facts about first appearance

  lemma IndexUnique(xs: seq<string>, i: nat)
    requires i < |xs| && forall a, b :: 0 <= a < b < |xs| ==> xs[a] != xs[b]
    ensures IndexOf(xs, xs[i]) == i
  {
    var j := IndexOf(xs, xs[i]);
  }

  lemma {:induction false} IndexInPrefix(xs: seq<string>, n: nat, x: string)
    requires n <= |xs| && x in xs
    ensures if x in xs[..n] then IndexOf(xs, x) == IndexOf(xs[..n], x) else IndexOf(xs, x) >= n
  {
    if n > 0 && xs[0] != x {
      IndexInPrefix(xs[1..], n - 1, x);
      assert xs[..n] == [xs[0]] + xs[1..][..n - 1] && xs[..n][1..] == xs[1..][..n - 1];
    }
  }

  /** Volumes are numbered by where their Secret first appears among the files. */
  lemma {:induction false} DistinctKeepsOrder(xs: seq<string>, i: nat, j: nat)
    requires i < j < |Distinct(xs)|
    ensures IndexOf(xs, Distinct(xs)[i]) < IndexOf(xs, Distinct(xs)[j])
  {
    var n, all := |xs| - 1, Distinct(xs);
    var r := Distinct(xs[..n]);
    assert all == if xs[n] in r then r else r + [xs[n]];
    IndexInPrefix(xs, n, all[i]);
    IndexInPrefix(xs, n, all[j]);
    if j < |r| { DistinctKeepsOrder(xs[..n], i, j); }
  }

  lemma DistinctPush(xs: seq<string>, x: string)
    ensures Distinct(xs + [x]) == if x in Distinct(xs) then Distinct(xs) else Distinct(xs) + [x]
  {
    assert (xs + [x])[..|xs|] == xs;
  }

  lemma IndexPush(keys: seq<string>, k: string, x: string)
    requires k !in keys && (x in keys || x == k)
    ensures IndexOf(keys + [k], x) == if x == k then |keys| else IndexOf(keys, x)
  {
    hide IndexOf;
    assert (keys + [k])[..|keys|] == keys;
    IndexInPrefix(keys + [k], |keys|, x);
  }

  lemma ItemsPush(keys: seq<string>, k: string)
    requires k !in keys
    ensures Items(keys + [k]) == Items(keys)[k := ItemPath(|keys|)]
  {
    hide IndexOf, ItemPath;
    forall x | x in keys + [k] ensures IndexOf(keys + [k], x) == if x == k then |keys| else IndexOf(keys, x) {
      IndexPush(keys, k, x);
    }
  }

  lemma {:induction false} ItemsCount(keys: seq<string>)
    requires forall a, b :: 0 <= a < b < |keys| ==> keys[a] != keys[b]
    ensures |Items(keys)| == |keys|
  {
    if keys != [] {
      var init, last := keys[..|keys| - 1], keys[|keys| - 1];
      ItemsCount(init);
      assert keys == init + [last];
      ItemsPush(init, last);
    }
  }

  // ---------------------------------------------------------------- the projection itself

  ghost predicate Collected(files: seq<File>, n: nat, order: seq<string>, items: map<string, map<string, string>>)
    requires n <= |files|
  {
    && order == Distinct(Secrets(files[..n]))
    && (forall s :: s in items <==> s in order)
    && forall s :: s in items ==> items[s] == Items(Distinct(KeysOf(files[..n], s)))
  }

  function Entered(entry: map<string, string>, key: string): map<string, string> {
    if key in entry then entry else entry[key := ItemPath(|entry|)]
  }

  lemma KeysPush(files: seq<File>, n: nat, s: string)
    requires n < |files|
    ensures KeysOf(files[..n + 1], s) ==
            if files[n].secret == s then KeysOf(files[..n], s) + [files[n].key] else KeysOf(files[..n], s)
  {
    assert files[..n + 1][..n] == files[..n] && files[..n + 1][n] == files[n];
  }

  /** Inserting a key into a Secret's items keeps them the numbering of its distinct keys. */
  lemma InsertStep(keys: seq<string>, key: string)
    ensures Items(Distinct(keys + [key])) == Entered(Items(Distinct(keys)), key)
  {
    DistinctPush(keys, key);
    ItemsCount(Distinct(keys));
    if key !in Distinct(keys) { ItemsPush(Distinct(keys), key); }
  }

  lemma CollectStep(files: seq<File>, n: nat, order: seq<string>, items: map<string, map<string, string>>)
    requires n < |files| && Collected(files, n, order, items)
    ensures var f := files[n];
            Collected(files, n + 1,
                      if f.secret in order then order else order + [f.secret],
                      items[f.secret := Entered(if f.secret in items then items[f.secret] else map[], f.key)])
  {
    hide Items, IndexOf, Entered, KeysOf, Distinct;
    var f := files[n];
    assert Secrets(files[..n + 1]) == Secrets(files[..n]) + [f.secret];
    DistinctPush(Secrets(files[..n]), f.secret);
    var keys := KeysOf(files[..n], f.secret);
    InsertStep(keys, f.key);
    if f.secret !in items {
      UnseenSecretHasNoKeys(files[..n], f.secret);
      NoItems();
    }
    forall s ensures KeysOf(files[..n + 1], s) == if f.secret == s then KeysOf(files[..n], s) + [f.key]
        else KeysOf(files[..n], s) {
      KeysPush(files, n, s);
    }
  }

  lemma NoItems()
    ensures Items(Distinct([])) == map[]
  {}

  // ---------------------------------------------------------------- listing in key order

  lemma {:induction false} BeforeTransitive(a: string, b: string, c: string)
    requires Before(a, b) && Before(b, c)
    ensures Before(a, c)
  {
    if a != "" && b[0] == c[0] && a[0] == b[0] { BeforeTransitive(a[1..], b[1..], c[1..]); }
  }

  lemma {:induction false} BeforeTotal(a: string, b: string)
    ensures a == b || Before(a, b) || Before(b, a)
  {
    if a != "" && b != "" && a[0] == b[0] {
      BeforeTotal(a[1..], b[1..]);
      assert a[1..] == b[1..] ==> a == [a[0]] + a[1..] == b;
    }
  }

  lemma {:induction false} BeforeItself(a: string)
    ensures !Before(a, a)
  {
    if a != "" { BeforeItself(a[1..]); }
  }

  function Inserted(items: seq<Item>, x: Item): seq<Item> {
    if items == [] then [x]
    else if Before(x.key, items[0].key) then [x] + items
    else [items[0]] + Inserted(items[1..], x)
  }

  lemma {:induction false} InsertedMembers(items: seq<Item>, x: Item)
    ensures forall y :: y in Inserted(items, x) <==> y in items || y == x
  {
    if items != [] && !Before(x.key, items[0].key) { InsertedMembers(items[1..], x); }
  }

  lemma {:induction false} InsertedInOrder(items: seq<Item>, x: Item)
    requires Increasing(items) && forall y :: y in items ==> y.key != x.key
    ensures Increasing(Inserted(items, x))
  {
    if items != [] {
      var first, rest := items[0], items[1..];
      assert forall y :: y in rest ==> y in items;
      if Before(x.key, first.key) {
        forall j | 0 <= j < |items| ensures Before(x.key, items[j].key) {
          if j > 0 { BeforeTransitive(x.key, first.key, items[j].key); }
        }
      } else {
        BeforeTotal(x.key, first.key);
        InsertedInOrder(rest, x);
        InsertedMembers(rest, x);
        var tail := Inserted(rest, x);
        forall j | 0 <= j < |tail| ensures Before(first.key, tail[j].key) {
          assert tail[j] in tail;
          if tail[j] != x {
            var k :| 0 <= k < |rest| && rest[k] == tail[j];
            assert rest[k] == items[k + 1];
          }
        }
      }
    }
  }

  /** Walking an ordered map: its entries, in key order. */
  method ListInOrder(m: map<string, string>) returns (items: seq<Item>)
    ensures Lists(items, m)
  {
    items := [];
    var keys := m.Keys;
    while keys != {}
      invariant keys <= m.Keys && Increasing(items)
      invariant forall x :: x in items ==> x.key in m && x.key !in keys && m[x.key] == x.path
      invariant forall k :: k in m && k !in keys ==> Item(k, m[k]) in items
      decreases |keys|
    {
      var k :| k in keys;
      InsertedMembers(items, Item(k, m[k]));
      InsertedInOrder(items, Item(k, m[k]));
      items := Inserted(items, Item(k, m[k]));
      keys := keys - {k};
    }
  }

  method ProjectSecretFiles(files: seq<File>) returns (volumes: seq<Volume>, mounts: seq<Mount>)
    ensures AreVolumes(volumes, files)
    ensures |mounts| == |files|
    ensures forall i :: 0 <= i < |mounts| ==> mounts[i] == MountOf(files, i)
  {
    hide Items, IndexOf, KeysOf, Render;
    volumes, mounts := [], [];
    if files == [] {
      assert Distinct(Secrets(files)) == [];
      return;
    }
    var order: seq<string> := [];
    var itemsBySecret: map<string, map<string, string>> := map[];
    for n := 0 to |files|
      invariant Collected(files, n, order, itemsBySecret)
    {
      CollectStep(files, n, order, itemsBySecret);
      var f := files[n];
      if f.secret !in order { order := order + [f.secret]; }
      var entry := if f.secret in itemsBySecret then itemsBySecret[f.secret] else map[];
      if f.key !in entry { entry := entry[f.key := "file-" + Render(|entry|)]; }
      itemsBySecret := itemsBySecret[f.secret := entry];
    }
    assert files[..|files|] == files;
    volumes, mounts := RenderProjection(files, order, itemsBySecret);
  }

  /** The second half: volumes in order of first appearance, then one mount per file. */
  method RenderProjection(files: seq<File>, order: seq<string>, itemsBySecret: map<string, map<string, string>>)
    returns (volumes: seq<Volume>, mounts: seq<Mount>)
    requires order == Distinct(Secrets(files))
    requires forall s :: s in order ==> s in itemsBySecret && itemsBySecret[s] == ItemsFor(files, s)
    ensures AreVolumes(volumes, files)
    ensures |mounts| == |files|
    ensures forall i :: 0 <= i < |mounts| ==> mounts[i] == MountOf(files, i)
  {
    hide ItemsFor, IndexOf, KeysOf, Distinct, Render, Lists;
    volumes, mounts := [], [];
    var nameBySecret: map<string, string> := map[];
    for n := 0 to |order|
      invariant |volumes| == n && forall k :: 0 <= k < n ==> IsVolume(volumes[k], files, k)
      invariant forall k :: 0 <= k < n ==> order[k] in nameBySecret && nameBySecret[order[k]] == VolumeName(k)
    {
      var secret := order[n];
      var name := "kobe-file-" + Render(n);
      nameBySecret := nameBySecret[secret := name];
      var items := ListInOrder(itemsBySecret[secret]);
      volumes := volumes + [Volume(name, secret, items, FILE_MODE, false)];
    }
    for i := 0 to |files|
      invariant |mounts| == i && forall k :: 0 <= k < i ==> mounts[k] == MountOf(files, k)
    {
      var f := files[i];
      assert f.secret == Secrets(files)[i];
      FileIsItem(files, i);
      var n := IndexOf(order, f.secret);
      mounts := mounts + [Mount(nameBySecret[f.secret], f.path, itemsBySecret[f.secret][f.key], true)];
    }
  }

  lemma FileIsItem(files: seq<File>, i: nat)
    requires i < |files|
    ensures files[i].key in ItemsFor(files, files[i].secret)
  {
    assert files[i].key in KeysOf(files, files[i].secret);
  }

  // ---------------------------------------------------------------- meaning preserved

  lemma NamesDistinct(m: nat, n: nat)
    ensures VolumeName(m) == VolumeName(n) <==> m == n
    ensures ItemPath(m) == ItemPath(n) <==> m == n
  {
    RenderInjective(m, n);
    assert VolumeName(m)[10..] == Render(m) && VolumeName(n)[10..] == Render(n);
    assert ItemPath(m)[5..] == Render(m) && ItemPath(n)[5..] == Render(n);
  }

  /** Only one key of a Secret has a given path. */
  lemma PathsDistinct(files: seq<File>, secret: string, j: string, k: string)
    requires j in ItemsFor(files, secret) && k in ItemsFor(files, secret)
    ensures ItemsFor(files, secret)[j] == ItemsFor(files, secret)[k] <==> j == k
  {
    var keys := Distinct(KeysOf(files, secret));
    NamesDistinct(IndexOf(keys, j), IndexOf(keys, k));
  }

  /** Following a mount leads to its file's key: exactly one volume has the mount's name, that volume
      projects the file's Secret, and exactly one of its items has the mount's path. */
  lemma MountReachesItsFile(files: seq<File>, volumes: seq<Volume>, i: nat)
    requires AreVolumes(volumes, files) && i < |files|
    ensures var m := MountOf(files, i);
            && m.mountPath == files[i].path && m.readOnly
            && exists n :: 0 <= n < |volumes| &&
                 var v := volumes[n];
                 && v.name == m.volume && v.secret == files[i].secret
                 && (forall k :: 0 <= k < |volumes| && volumes[k].name == m.volume ==> k == n)
                 && (forall x :: x in v.items && x.path == m.subPath <==> x == Item(files[i].key, m.subPath))
  {
    hide ItemsFor, Distinct;
    var f, m := files[i], MountOf(files, i);
    assert f.secret == Secrets(files)[i];
    FileIsItem(files, i);
    var order, entry := Distinct(Secrets(files)), ItemsFor(files, f.secret);
    var n := IndexOf(order, f.secret);
    var v := volumes[n];
    assert IsVolume(v, files, n) && m.subPath == entry[f.key];
    forall x | x in v.items && x.path == m.subPath ensures x == Item(f.key, m.subPath) {
      PathsDistinct(files, f.secret, x.key, f.key);
    }
    forall k | 0 <= k < |volumes| && volumes[k].name == m.volume ensures k == n {
      assert IsVolume(volumes[k], files, k);
      NamesDistinct(k, n);
    }
  }

  predicate Takes(files: seq<File>, secret: string, key: string) {
    exists i :: 0 <= i < |files| && files[i].secret == secret && files[i].key == key
  }

  /** The items of a volume are exactly the keys the files take from its Secret, in key order, with
      paths numbered from zero without gaps. */
  lemma ItemsNumberedWithoutGaps(files: seq<File>, v: Volume, n: nat)
    requires n < |Distinct(Secrets(files))| && IsVolume(v, files, n)
    ensures var keys := Distinct(KeysOf(files, v.secret));
            && Increasing(v.items) && (forall k :: k in keys <==> Takes(files, v.secret, k))
            && (forall c :: 0 <= c < |keys| ==> Item(keys[c], ItemPath(c)) in v.items)
            && (forall x :: x in v.items ==> exists c :: 0 <= c < |keys| && x == Item(keys[c], ItemPath(c)))
  {
    var keys, m := Distinct(KeysOf(files, v.secret)), ItemsFor(files, v.secret);
    hide Render, Distinct, KeysOf, IsVolume, Before;
    assert Lists(v.items, m) by { VolumeLists(files, v, n); }
    forall c | 0 <= c < |keys| ensures Item(keys[c], ItemPath(c)) in v.items {
      IndexUnique(keys, c);
      assert keys[c] in m && m[keys[c]] == ItemPath(c);
    }
    forall x | x in v.items ensures exists c :: 0 <= c < |keys| && x == Item(keys[c], ItemPath(c)) {
      var c := IndexOf(keys, x.key);
      assert x == Item(keys[c], ItemPath(c));
    }
  }

  lemma VolumeLists(files: seq<File>, v: Volume, n: nat)
    requires n < |Distinct(Secrets(files))| && IsVolume(v, files, n)
    ensures Lists(v.items, ItemsFor(files, v.secret))
  {}
}
