/** One concrete choice of the library functions, which shows that what RuntimeConfig and Tokens ask of them can be
    met. */
module PlainText {
  import opened Common
  import opened Numerals
  import opened RuntimeConfig
  import Base64
  import Tokens

  /** Every character after a backslash, so that a bare comma ends an item. */
  function Escaped(s: string): string {
    if s == "" then "" else ['\\', s[0]] + Escaped(s[1..])
  }

  function Items(l: seq<string>): string {
    if l == [] then "" else Escaped(l[0]) + "," + Items(l[1..])
  }

  function DumpList(l: seq<string>): string {
    "[" + Items(l) + "]"
  }

  lemma {:induction false} FirstItemReads(s: string, t: string, p: string, q: string)
    requires Escaped(s) + "," + p == Escaped(t) + "," + q
    ensures s == t && p == q
  {
    var x, y := Escaped(s) + "," + p, Escaped(t) + "," + q;
    if s == "" || t == "" {
      assert x[0] == y[0];
      assert x[1..] == y[1..];
    } else {
      assert x[1] == s[0] && y[1] == t[0];
      assert x[2..] == Escaped(s[1..]) + "," + p && y[2..] == Escaped(t[1..]) + "," + q;
      FirstItemReads(s[1..], t[1..], p, q);
      assert s == [s[0]] + s[1..] && t == [t[0]] + t[1..];
    }
  }

  lemma {:induction false} ItemsRead(a: seq<string>, b: seq<string>)
    requires Items(a) == Items(b)
    ensures a == b
  {
    if a != [] && b != [] {
      FirstItemReads(a[0], b[0], Items(a[1..]), Items(b[1..]));
      ItemsRead(a[1..], b[1..]);
      assert a == [a[0]] + a[1..] && b == [b[0]] + b[1..];
    }
  }

  ghost function LoadList(s: string): Option<seq<string>> {
    if exists l :: DumpList(l) == s then (var l :| DumpList(l) == s; Some(l)) else None
  }

  lemma DumpsDiffer(a: seq<string>, b: seq<string>)
    requires DumpList(a) == DumpList(b)
    ensures a == b
  {
    assert Items(a) == DumpList(a)[1..|DumpList(a)| - 1] == DumpList(b)[1..|DumpList(b)| - 1] == Items(b);
    ItemsRead(a, b);
  }

  lemma ListsRead(l: seq<string>)
    ensures LoadList(DumpList(l)) == Some(l)
  {
    DumpsDiffer(LoadList(DumpList(l)).value, l);
  }

  ghost function ParseInt(s: string): Option<int> {
    if exists i :: Decimal(i) == s then (var i :| Decimal(i) == s; Some(i)) else None
  }

  lemma IntsRead(i: int)
    ensures ParseInt(Decimal(i)) == Some(i)
  {
    DecimalsDiffer(ParseInt(Decimal(i)).value, i);
  }

  /** Floats without a fraction, and no encryption. */
  ghost function Plain(): Text {
    Text(c => c == ' ', s => s, s => ParseInt(s), i => Decimal(i),
         (r: real) => r.Floor as real == r, i => Some(i as real),
         s => if ParseInt(s).Some? then Some(ParseInt(s).value as real) else None, (r: real) => Decimal(r.Floor),
         s => LoadList(s), l => DumpList(l), l => DumpList(l), s => s, s => Some(s))
  }

  lemma PlainNumbersRead()
    ensures var x := Plain();
            && (forall i :: x.parseInt(x.showInt(i)) == Some(i))
            && (forall r :: x.isFloat(r) ==> x.parseFloat(x.showFloat(r)) == Some(r))
  {
    var x := Plain();
    forall i ensures x.parseInt(x.showInt(i)) == Some(i) {
      IntsRead(i);
    }
    forall r | x.isFloat(r) ensures x.parseFloat(x.showFloat(r)) == Some(r) {
      IntsRead(r.Floor);
    }
  }

  lemma PlainListsRead()
    ensures var x := Plain();
            && (forall l :: x.loadList(x.dumpList(l)) == Some(l))
            && (forall l :: x.dumpList(l) != "" && Stripped(x, x.dumpList(l)) && x.dumpList(l)[0] == '[')
  {
    var x := Plain();
    forall l ensures x.loadList(x.dumpList(l)) == Some(l) {
      ListsRead(l);
    }
  }

  lemma RoundTripsCanBeMet()
    ensures RoundTrips(Plain())
  {
    PlainNumbersRead();
    PlainListsRead();
  }

  // ---- Objects as bytes ----

  function EntryText(k: string, f: Tokens.Field): string {
    DumpList([k, if f.Text? then "t" else "n", if f.Text? then f.text else Decimal(f.number)])
  }

  lemma EntriesDiffer(a: string, f: Tokens.Field, b: string, g: Tokens.Field)
    requires EntryText(a, f) == EntryText(b, g)
    ensures a == b && f == g
  {
    var x := [a, if f.Text? then "t" else "n", if f.Text? then f.text else Decimal(f.number)];
    var y := [b, if g.Text? then "t" else "n", if g.Text? then g.text else Decimal(g.number)];
    DumpsDiffer(x, y);
    assert x[0] == y[0] && x[1] == y[1] && x[2] == y[2];
    if f.Number? {
      DecimalsDiffer(f.number, g.number);
    }
  }

  ghost function Entries(m: map<string, Tokens.Field>): seq<string>
    decreases |m|
  {
    if m == map[] then []
    else
      var k := Pick(m.Keys);
      assert (m - {k}).Keys == m.Keys - {k};
      [EntryText(k, m[k])] + Entries(m - {k})
  }

  lemma {:induction false} EntriesHold(m: map<string, Tokens.Field>, s: string)
    ensures s in Entries(m) <==> exists k :: k in m && s == EntryText(k, m[k])
    decreases |m|
  {
    if m != map[] {
      var x := Pick(m.Keys);
      assert (m - {x}).Keys == m.Keys - {x};
      EntriesHold(m - {x}, s);
      assert s in Entries(m) <==> s == EntryText(x, m[x]) || s in Entries(m - {x});
      if k :| k in m && s == EntryText(k, m[k]) {
        assert k != x ==> k in m - {x} && (m - {x})[k] == m[k];
      }
    }
  }

  lemma EntriesAreIn(m: map<string, Tokens.Field>, n: map<string, Tokens.Field>, k: string)
    requires Entries(m) == Entries(n) && k in m
    ensures k in n && n[k] == m[k]
  {
    var s := EntryText(k, m[k]);
    EntriesHold(m, s);
    EntriesHold(n, s);
    var x :| x in n && s == EntryText(x, n[x]);
    EntriesDiffer(k, m[k], x, n[x]);
  }

  lemma EntriesRead(m: map<string, Tokens.Field>, n: map<string, Tokens.Field>)
    requires Entries(m) == Entries(n)
    ensures m == n
  {
    forall k ensures k in m ==> k in n && n[k] == m[k]
             ensures k in n ==> k in m
    {
      if k in m {
        EntriesAreIn(m, n, k);
      }
      if k in n {
        EntriesAreIn(n, m, k);
      }
    }
  }

  function CharBytes(c: char): (b: seq<Base64.Byte>)
    ensures |b| == 3
  {
    [c as int / 65536, c as int / 256 % 256, c as int % 256]
  }

  lemma ThreeBytes(a: nat, b: nat)
    requires a / 65536 == b / 65536 && a / 256 % 256 == b / 256 % 256 && a % 256 == b % 256
    ensures a == b
  {
    assert a / 256 / 256 == a / 65536 && b / 256 / 256 == b / 65536;
    assert a / 256 == b / 256;
  }

  lemma CharBytesDiffer(c: char, d: char)
    requires CharBytes(c) == CharBytes(d)
    ensures c == d
  {
    var x, y := CharBytes(c), CharBytes(d);
    assert x[0] == y[0] && x[1] == y[1] && x[2] == y[2];
    ThreeBytes(c as int, d as int);
  }

  function Bytes(s: string): seq<Base64.Byte> {
    if s == "" then [] else CharBytes(s[0]) + Bytes(s[1..])
  }

  lemma {:induction false} BytesDiffer(s: string, t: string)
    requires Bytes(s) == Bytes(t)
    ensures s == t
  {
    if s != "" && t != "" {
      assert CharBytes(s[0]) == Bytes(s)[..3] == Bytes(t)[..3] == CharBytes(t[0]);
      assert Bytes(s[1..]) == Bytes(s)[3..] == Bytes(t)[3..] == Bytes(t[1..]);
      CharBytesDiffer(s[0], t[0]);
      BytesDiffer(s[1..], t[1..]);
      assert s == [s[0]] + s[1..] && t == [t[0]] + t[1..];
    }
  }

  ghost function Dumps(m: map<string, Tokens.Field>): seq<Base64.Byte> {
    Bytes(DumpList(Entries(m)))
  }

  lemma ObjectsDiffer(m: map<string, Tokens.Field>, n: map<string, Tokens.Field>)
    requires Dumps(m) == Dumps(n)
    ensures m == n
  {
    BytesDiffer(DumpList(Entries(m)), DumpList(Entries(n)));
    DumpsDiffer(Entries(m), Entries(n));
    EntriesRead(m, n);
  }

  ghost function Loads(b: seq<int>): Option<Tokens.Json> {
    if exists m :: Dumps(m) == b then (var m :| Dumps(m) == b; Some(Tokens.Object(m))) else None
  }

  ghost function PlainLibrary(): Tokens.Library {
    Tokens.Library((key, text) => [], m => Dumps(m), b => Loads(b), s => ParseInt(s))
  }

  lemma FaithfulCanBeMet()
    ensures Tokens.Faithful(PlainLibrary())
  {
    forall m ensures Loads(Dumps(m)) == Some(Tokens.Object(m)) {
      var n :| Dumps(n) == Dumps(m) && Loads(Dumps(m)) == Some(Tokens.Object(n));
      ObjectsDiffer(n, m);
    }
  }
}
