/** The helpers of utils/utils.go: the random suffix generator and the dated directory. */
module Utils {
  import opened Wrappers
  import opened Host
  import Times
  import Paths

  /** The 62 runes a-z, A-Z, 0-9, in that order (`defaultPool`). */
  const DefaultPool: string := CharRange('a', 26) + CharRange('A', 26) + CharRange('0', 10)

  predicate IsAlnum(c: char) {
    'a' <= c <= 'z' || 'A' <= c <= 'Z' || '0' <= c <= '9'
  }

  /** The `n` consecutive characters starting at `lo`. */
  function CharRange(lo: char, n: nat): string
    requires lo as int + n < 0xD800
  {
    seq(n, i requires 0 <= i < n => (lo as int + i) as char)
  }

  lemma LowerRange() ensures "abcdefghijklmnopqrstuvwxyz" == CharRange('a', 26) {}
  lemma UpperRange() ensures "ABCDEFGHIJKLMNOPQRSTUVWXYZ" == CharRange('A', 26) {}
  lemma DigitRange() ensures "0123456789" == CharRange('0', 10) {}

  lemma InCharRange(lo: char, n: nat, c: char)
    requires lo as int + n < 0xD800
    ensures c in CharRange(lo, n) <==> lo as int <= c as int < lo as int + n
  {
    if lo as int <= c as int < lo as int + n {
      assert CharRange(lo, n)[c as int - lo as int] == c;
    }
  }

  /** The default pool holds exactly the ASCII letters and digits. */
  lemma DefaultPoolIsAlphanumeric()
    ensures |DefaultPool| == 62
    ensures forall c :: c in DefaultPool <==> IsAlnum(c)
  {
    LowerRange();
    UpperRange();
    DigitRange();
    forall c ensures c in DefaultPool <==> IsAlnum(c) {
      InCharRange('a', 26, c);
      InCharRange('A', 26, c);
      InCharRange('0', 10, c);
    }
  }

  /** The pool `RandString` draws from: the caller's, or the default when that is empty. */
  function EffectivePool(pool: seq<char>): (p: seq<char>)
    ensures |p| > 0
    ensures pool != [] ==> p == pool
    ensures pool == [] ==> |p| == 62
  {
    DefaultPoolIsAlphanumeric();
    if |pool| == 0 then DefaultPool else pool
  }

  /** An empty pool stands for the ASCII letters and digits, and for nothing else. */
  lemma EmptyPoolIsAlphanumeric(pool: seq<char>)
    requires pool == []
    ensures forall c :: c in EffectivePool(pool) <==> IsAlnum(c)
  {
    DefaultPoolIsAlphanumeric();
  }

  /** The string whose i-th rune is the pool's entry at the i-th random index. */
  function Drawn(pool: seq<char>, draws: seq<nat>): (s: string)
    requires forall i :: 0 <= i < |draws| ==> draws[i] < |pool|
    ensures |s| == |draws|
  {
    seq(|draws|, i requires 0 <= i < |draws| => pool[draws[i]])
  }

  /** Every rune of a drawn string comes from the pool, at the position the draw names. */
  lemma DrawnFromPool(pool: seq<char>, draws: seq<nat>)
    requires forall i :: 0 <= i < |draws| ==> draws[i] < |pool|
    ensures forall i :: 0 <= i < |draws| ==> Drawn(pool, draws)[i] == pool[draws[i]] && Drawn(pool, draws)[i] in pool
  {
  }

  /** `RandString(n, pool)`: fills an n-rune buffer index by index with pool entries chosen
      by `draws`, the answers of `rand.Int(rand.Reader, len(pool))`. */
  method RandString(n: nat, pool: seq<char>, draws: seq<nat>) returns (s: string)
    requires |draws| == n
    requires forall i :: 0 <= i < n ==> draws[i] < |EffectivePool(pool)|
    ensures |s| == n
    ensures forall i :: 0 <= i < n ==> s[i] == EffectivePool(pool)[draws[i]]
    ensures s == Drawn(EffectivePool(pool), draws)
    ensures pool != [] ==> forall i :: 0 <= i < n ==> s[i] in pool
    ensures pool == [] ==> forall i :: 0 <= i < n ==> IsAlnum(s[i])
  {
    if pool == [] {
      EmptyPoolIsAlphanumeric(pool);
    }
    var p := pool;
    if |p| == 0 {
      p := DefaultPool;
    }
    var b := new char[n];
    for i := 0 to n
      invariant p == EffectivePool(pool)
      invariant forall k :: 0 <= k < i ==> b[k] == p[draws[k]]
    {
      var randN := draws[i];
      b[i] := p[randN];
    }
    s := b[..];
  }

  /** `Mkdir(basePath)` on the local date `today`: the dated folder below `basePath`, or ""
      and the error of `os.MkdirAll`, whose answer for each path is `mkdirAll`. */
  method Mkdir(basePath: string, today: Times.Date, mkdirAll: string -> Option<IoError>)
    returns (folderPath: string, err: Option<IoError>)
    ensures err == mkdirAll(Paths.Join([basePath, Times.DateFolder(today)]))
    ensures err.None? ==> folderPath == Paths.Join([basePath, Times.DateFolder(today)])
    ensures err.Some? ==> folderPath == ""
  {
    var folderName := Times.DateFolder(today);
    folderPath := Paths.Join([basePath, folderName]);
    err := mkdirAll(folderPath);
    if err.Some? {
      return "", err;
    }
  }
}
