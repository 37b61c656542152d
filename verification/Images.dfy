/** Names of uploaded image files: a prefix, the id of what is shown, and a flag
    (insImg.php, EnrollPartImg.php, insCrashImg.php). */
module Images {
  import opened Decimals

  function ImageName(prefix: string, idx: nat, flag: nat): string {
    prefix + (Decimal(idx) + ['_'] + Decimal(flag)) + ".jpg"
  }

  /** The name is that of an image of idx. */
  ghost predicate ImageOf(prefix: string, idx: int, name: string) {
    idx >= 0 && exists flag: nat :: name == ImageName(prefix, idx, flag)
  }

  lemma {:induction false} SplitOnce(a: string, b: string, c: string, d: string, sep: char)
    requires a + [sep] + b == c + [sep] + d
    requires sep !in a && sep !in c
    ensures a == c && b == d
  {
    var x, y := a + [sep] + b, c + [sep] + d;
    assert a == [] || a[0] in a;
    assert c == [] || c[0] in c;
    assert x[0] == (if a == [] then sep else a[0]) && y[0] == (if c == [] then sep else c[0]);
    if a == [] {
      assert x[1..] == b && y[1..] == d;
    } else {
      assert x[1..] == a[1..] + [sep] + b && y[1..] == c[1..] + [sep] + d;
      SplitOnce(a[1..], b, c[1..], d, sep);
    }
  }

  /** The name determines the id and the flag. */
  lemma ImageNameInjective(prefix: string, idx: nat, flag: nat, idx': nat, flag': nat)
    requires ImageName(prefix, idx, flag) == ImageName(prefix, idx', flag')
    ensures idx == idx' && flag == flag'
  {
    var x, y := Decimal(idx) + ['_'] + Decimal(flag), Decimal(idx') + ['_'] + Decimal(flag');
    var q := ".jpg";
    assert ImageName(prefix, idx, flag) == prefix + x + q && ImageName(prefix, idx', flag') == prefix + y + q;
    assert |x| == |y|;
    assert x == (prefix + x + q)[|prefix|..|prefix| + |x|] && y == (prefix + y + q)[|prefix|..|prefix| + |y|];
    SplitOnce(Decimal(idx), Decimal(flag), Decimal(idx'), Decimal(flag'), '_');
    DecimalInjective(idx, idx');
    DecimalInjective(flag, flag');
  }

  /** No file shows two things. */
  lemma ImagesApart(prefix: string, a: int, b: int, name: string)
    requires ImageOf(prefix, a, name) && ImageOf(prefix, b, name)
    ensures a == b
  {
    var f: nat :| name == ImageName(prefix, a, f);
    var g: nat :| name == ImageName(prefix, b, g);
    ImageNameInjective(prefix, a, f, b, g);
  }
}
