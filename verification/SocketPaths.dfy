/** What a socket's path tells: the service it belongs to and the weight it asks for. */
module SocketPaths {
  import opened Common

  /** Node weights. */
  type Weight = w: int | 1 <= w <= 100 witness 1

  const SEPARATOR := '@'
  const DEFAULT_WEIGHT: Weight := 1
  const MAX_WEIGHT := 100

  /** The last place of `c`, or -1. */
  function LastPlace(s: string, c: char): (k: int)
    ensures -1 <= k < |s|
    ensures k >= 0 ==> s[k] == c
  {
    if s == "" then -1
    else if s[|s| - 1] == c then |s| - 1
    else LastPlace(s[..|s| - 1], c)
  }

  /** What comes after the last '/'. */
  function BaseName(path: string): string {
    path[LastPlace(path, '/') + 1..]
  }

  /** The one service a socket path belongs to: the name of the directory it lies in. */
  function OwnerOf(path: string): string {
    var k := LastPlace(path, '/');
    if k < 0 then "" else BaseName(path[..k])
  }

  function WithoutSlashes(path: string): string {
    if path != "" && path[|path| - 1] == '/' then WithoutSlashes(path[..|path| - 1]) else path
  }

  /** The last element of a path, slashes at its end aside. */
  function Base(path: string): string {
    if path == "" then "."
    else if WithoutSlashes(path) == "" then "/"
    else BaseName(WithoutSlashes(path))
  }

  /** A file name without its extension. */
  function Stem(name: string): string {
    var k := LastPlace(name, '.');
    if k < 0 then name else name[..k]
  }

  predicate IsDigit(c: char) {
    '0' <= c <= '9'
  }

  predicate IsNumeral(s: string) {
    s != "" && forall i :: 0 <= i < |s| ==> IsDigit(s[i])
  }

  /** The value of a decimal numeral. */
  function ValueOf(s: string): int
    requires forall i :: 0 <= i < |s| ==> IsDigit(s[i])
  {
    if s == "" then 0 else 10 * ValueOf(s[..|s| - 1]) + (s[|s| - 1] as int - '0' as int)
  }

  /** A decimal integer with an optional sign. */
  function ParseInt(s: string): Option<int> {
    if IsNumeral(s) then Some(ValueOf(s))
    else if s != "" && s[0] == '+' && IsNumeral(s[1..]) then Some(ValueOf(s[1..]))
    else if s != "" && s[0] == '-' && IsNumeral(s[1..]) then Some(-ValueOf(s[1..]))
    else None
  }

  /** The weight a socket's file name asks for: the number behind its last '@'. */
  function WeightOf(path: string): Weight {
    var stem := Stem(Base(path));
    var idx := LastPlace(stem, SEPARATOR);
    if idx == -1 then DEFAULT_WEIGHT
    else
      match ParseInt(stem[idx + 1..])
      case Some(parsed) => if parsed <= 0 || parsed > MAX_WEIGHT then DEFAULT_WEIGHT else parsed
      case None => DEFAULT_WEIGHT
  }

  // ---------------------------------------------------------------- places

  lemma {:induction false} LastOfJoin(a: string, c: char, b: string)
    requires c !in b
    ensures LastPlace(a + [c] + b, c) == |a|
    decreases |b|
  {
    var s := a + [c] + b;
    if b != "" {
      assert s[..|s| - 1] == a + [c] + b[..|b| - 1];
      LastOfJoin(a, c, b[..|b| - 1]);
    }
  }

  lemma {:induction false} NoPlace(s: string, c: char)
    requires c !in s
    ensures LastPlace(s, c) == -1
  {
    if s != "" {
      NoPlace(s[..|s| - 1], c);
    }
  }

  lemma BaseOfJoin(dir: string, name: string)
    requires '/' !in name
    ensures BaseName(dir + "/" + name) == name
  {
    assert "/" == ['/'];
    LastOfJoin(dir, '/', name);
  }

  /** A socket belongs to the directory it lies in. */
  lemma OwnerOfJoin(dir: string, service: string, name: string)
    requires '/' !in service && '/' !in name
    ensures OwnerOf(dir + "/" + service + "/" + name) == service
    ensures OwnerOf(service + "/" + name) == service
  {
    var path := dir + "/" + service;
    assert "/" == ['/'];
    LastOfJoin(path, '/', name);
    assert (path + "/" + name)[..|path|] == path;
    BaseOfJoin(dir, service);
    LastOfJoin(service, '/', name);
    assert (service + "/" + name)[..|service|] == service;
    NoPlace(service, '/');
  }

  // ---------------------------------------------------------------- weights

  /** A number in decimal digits. */
  function Decimal(n: nat): (s: string)
    ensures IsNumeral(s)
  {
    var digit := ('0' as int + n % 10) as char;
    if n < 10 then [digit] else Decimal(n / 10) + [digit]
  }

  lemma {:induction false} DecimalRead(n: nat)
    ensures ValueOf(Decimal(n)) == n
  {
    var s := Decimal(n);
    if n >= 10 {
      assert s[..|s| - 1] == Decimal(n / 10);
      DecimalRead(n / 10);
    }
  }

  lemma BaseIs(dir: string, name: string)
    requires '/' !in name && name != ""
    ensures Base(dir + "/" + name) == name
  {
    var path := dir + "/" + name;
    assert path[|path| - 1] == name[|name| - 1];
    assert WithoutSlashes(path) == path;
    BaseOfJoin(dir, name);
  }

  /** A socket named with a weight gets it. */
  lemma WeightRead(dir: string, name: string, w: Weight, extension: string)
    requires '/' !in name && '/' !in extension && '.' !in extension
    ensures WeightOf(dir + "/" + name + "@" + Decimal(w) + "." + extension) == w
  {
    hide Decimal, Base;
    var digits := Decimal(w);
    var stem := name + "@" + digits;
    var file := stem + "." + extension;
    assert dir + "/" + name + "@" + digits + "." + extension == dir + "/" + file;
    BaseIs(dir, file);
    assert "." == ['.'] && "@" == ['@'];
    LastOfJoin(stem, '.', extension);
    assert file[..|stem|] == stem;
    LastOfJoin(name, '@', digits);
    assert stem[|name| + 1..] == digits;
    DecimalRead(w);
  }

  /** A socket without a number behind an '@', or with one that is no weight, counts once. */
  lemma WeightElse(dir: string, name: string, text: string, extension: string)
    requires '/' !in name && '/' !in text && '/' !in extension && '.' !in extension && '@' !in text
    requires !(exists w: Weight :: ParseInt(text) == Some(w))
    ensures WeightOf(dir + "/" + name + "@" + text + "." + extension) == 1
    ensures '@' !in name ==> WeightOf(dir + "/" + name + "." + extension) == 1
  {
    hide Base, ParseInt;
    assert "." == ['.'] && "@" == ['@'];
    var stem := name + "@" + text;
    assert dir + "/" + name + "@" + text + "." + extension == dir + "/" + (stem + "." + extension);
    BaseIs(dir, stem + "." + extension);
    LastOfJoin(stem, '.', extension);
    assert (stem + "." + extension)[..|stem|] == stem;
    LastOfJoin(name, '@', text);
    assert stem[|name| + 1..] == text;
    assert dir + "/" + name + "." + extension == dir + "/" + (name + "." + extension);
    BaseIs(dir, name + "." + extension);
    LastOfJoin(name, '.', extension);
    assert (name + "." + extension)[..|name|] == name;
    if '@' !in name {
      NoPlace(name, '@');
    }
  }
}
