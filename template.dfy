/** The formatting half of `Logger::log`: the level table, the scan of the
    format for `$identifier` placeholders, the three placeholder providers
    (`time`, `token` and the `level` padding transformer), the substitution
    table handed to `strtr`, and the line that results. */
module Template {
  import opened Php
  import opened StringTranslate

  const DEBUG: nat := 0
  const INFO: nat := 1
  const WARNING: nat := 2
  const ERROR: nat := 3
  const CRITICAL: nat := 4

  /** `Logger::$levels`: the level names, indexed by level number. */
  const Levels: seq<string> := ["debug", "info", "warning", "error", "critical"]

  /** Width the `level` transformer pads a level name to. */
  const LevelWidth: nat := 8

  /** The format a logger uses when its options give none. */
  const DefaultFormat: string := "[$time] $token - $level - $text"

  function LevelName(level: nat): string
    requires level < |Levels|
  {
    Levels[level]
  }

  // ---------------------------------------------------------------------
  // array_search over the level table

  /** `array_search($x, $xs)`: the first index holding `x`, or `false`. */
  function IndexOf(xs: seq<string>, x: string): (r: Option<nat>)
    ensures r.Some? <==> x in xs
    ensures r.Some? ==> r.value < |xs| && xs[r.value] == x && x !in xs[..r.value]
  {
    if xs == [] then None
    else if xs[0] == x then Some(0)
    else
      assert xs == [xs[0]] + xs[1..];
      match IndexOf(xs[1..], x)
      case None => None
      case Some(i) =>
        assert xs[..i + 1] == [xs[0]] + xs[1..][..i];
        Some(i + 1)
  }

  /** The level number a level-method name dispatches to. */
  function LevelIndex(name: string): Option<nat>
  {
    IndexOf(Levels, name)
  }

  /** Every level number is found again from its own name. */
  lemma LevelIndexOfName(level: nat)
    requires level < |Levels|
    ensures LevelIndex(LevelName(level)) == Some(level)
  {
    var r := IndexOf(Levels, Levels[level]);
    assert r.Some?;
    assert Levels[r.value] == Levels[level];
    assert Levels[0] != Levels[1] && Levels[0] != Levels[2] && Levels[0] != Levels[3] && Levels[0] != Levels[4];
    assert Levels[1] != Levels[2] && Levels[1] != Levels[3] && Levels[1] != Levels[4];
    assert Levels[2] != Levels[3] && Levels[2] != Levels[4] && Levels[3] != Levels[4];
  }

  // ---------------------------------------------------------------------
  // The placeholder scan: preg_match_all('/\$(\w+)/', $format)

  /** PCRE's `\w` without the `u` modifier: an ASCII letter, digit or `_`. */
  predicate IsWordChar(c: char)
  {
    ('a' <= c <= 'z') || ('A' <= c <= 'Z') || ('0' <= c <= '9') || c == '_'
  }

  predicate IsWord(s: string)
  {
    forall i :: 0 <= i < |s| ==> IsWordChar(s[i])
  }

  /** Length of the greedy `\w+` run at the head of `t` (0 if there is none). */
  function WordRun(t: string): (n: nat)
    ensures n <= |t| && IsWord(t[..n])
    ensures n == |t| || !IsWordChar(t[n])
  {
    if t == [] || !IsWordChar(t[0]) then 0
    else
      var n := WordRun(t[1..]);
      assert t[..1 + n] == [t[0]] + t[1..][..n];
      1 + n
  }

  /** The captured identifiers of every `$identifier` match, left to right,
      duplicates kept; a match resumes the scan right after itself. */
  function Placeholders(s: string): (ids: seq<string>)
    ensures forall i :: 0 <= i < |ids| ==> ids[i] != [] && IsWord(ids[i])
    decreases |s|
  {
    if |s| < 2 then []
    else if s[0] == '$' && IsWordChar(s[1]) then
      var n := WordRun(s[1..]);
      assert s[1..1 + n] == s[1..][..n];
      [s[1..1 + n]] + Placeholders(s[1 + n..])
    else Placeholders(s[1..])
  }

  /** The greedy run is the unique maximal word prefix. */
  lemma WordRunIs(t: string, n: nat)
    requires n <= |t| && IsWord(t[..n])
    requires n == |t| || !IsWordChar(t[n])
    ensures WordRun(t) == n
  {
    var w := WordRun(t);
    assert forall i :: 0 <= i < n ==> t[..n][i] == t[i];
    assert forall i :: 0 <= i < w ==> t[..w][i] == t[i];
  }

  /** The scan never runs across a character that cannot belong to `\w`,
      so it can be cut there. */
  lemma {:induction false} PlaceholdersSplit(a: string, b: string)
    requires b == [] || !IsWordChar(b[0])
    ensures Placeholders(a + b) == Placeholders(a) + Placeholders(b)
    decreases |a|
  {
    var s := a + b;
    if a == [] {
      assert s == b;
    } else if |a| == 1 {
      if b != [] {
        assert s[1] == b[0];
        assert s[1..] == b;
      }
    } else {
      assert s[0] == a[0] && s[1] == a[1];
      if a[0] == '$' && IsWordChar(a[1]) {
        var n := WordRun(a[1..]);
        SameMatch(a, b);
        PlaceholdersSplit(a[1 + n..], b);
      } else {
        assert s[1..] == a[1..] + b;
        PlaceholdersSplit(a[1..], b);
      }
    }
  }

  /** A match at the head of `a` is the same match at the head of `a + b`
      when `b` cannot extend it. */
  lemma SameMatch(a: string, b: string)
    requires |a| >= 2
    requires b == [] || !IsWordChar(b[0])
    ensures var n := WordRun(a[1..]);
      && WordRun((a + b)[1..]) == n
      && (a + b)[1..1 + n] == a[1..1 + n]
      && (a + b)[1 + n..] == a[1 + n..] + b
  {
    var s := a + b;
    var n := WordRun(a[1..]);
    assert s[1..][..n] == a[1..][..n];
    if n < |a| - 1 {
      assert s[1..][n] == a[1..][n];
    } else if b != [] {
      assert s[1..][n] == b[0];
    }
    WordRunIs(s[1..], n);
  }

  /** A `$identifier` followed by a non-word character (or the end) is
      matched with exactly that identifier. */
  lemma PlaceholderHead(id: string, b: string)
    requires id != [] && IsWord(id)
    requires b == [] || !IsWordChar(b[0])
    ensures Placeholders("$" + id + b) == [id] + Placeholders(b)
  {
    var s := "$" + id + b;
    assert s[1..] == id + b;
    assert (id + b)[..|id|] == id;
    if b != [] {
      assert (id + b)[|id|] == b[0];
    }
    WordRunIs(id + b, |id|);
    assert s[1..1 + |id|] == id;
    assert s[1 + |id|..] == b;
  }

  /** Every `$identifier` occurrence followed by a non-word character (or
      the end) is found by the scan, wherever it stands in the format. */
  lemma PlaceholderFound(a: string, id: string, b: string)
    requires id != [] && IsWord(id)
    requires b == [] || !IsWordChar(b[0])
    ensures id in Placeholders(a + "$" + id + b)
  {
    assert a + "$" + id + b == a + ("$" + id + b);
    PlaceholdersSplit(a, "$" + id + b);
    PlaceholderHead(id, b);
  }

  // ---------------------------------------------------------------------
  // The `level` transformer: str_pad($level, 8, ' ', STR_PAD_BOTH)

  function Spaces(n: nat): (r: string)
    ensures |r| == n && forall i :: 0 <= i < n ==> r[i] == ' '
  {
    seq(n, _ => ' ')
  }

  /** `str_pad($s, $width, ' ', STR_PAD_BOTH)`: a string at least `width`
      long is returned unchanged; a shorter one is centred in a field of
      exactly `width` characters, the smaller half of the padding (rounded
      down) going to the left. */
  function Pad(s: string, width: nat): (r: string)
    ensures |s| >= width ==> r == s
    ensures |s| < width ==> |r| == width && r[(width - |s|) / 2..(width - |s|) / 2 + |s|] == s
    ensures |s| < width ==> forall i :: 0 <= i < width && !((width - |s|) / 2 <= i < (width - |s|) / 2 + |s|) ==> r[i] == ' '
  {
    if |s| >= width then s
    else
      var left := (width - |s|) / 2;
      var r := Spaces(left) + s + Spaces(width - |s| - left);
      assert r[left..left + |s|] == s;
      r
  }

  lemma PadShort(s: string, width: nat)
    ensures |s| < width ==> Pad(s, width) == Spaces((width - |s|) / 2) + s + Spaces(width - |s| - (width - |s|) / 2)
  {
  }

  /** The five level names as they appear in a formatted line. */
  const PaddedLevels: seq<string> := [" debug  ", "  info  ", "warning ", " error  ", "critical"]

  /** Each level name comes out exactly eight characters wide. */
  lemma LevelPadding(level: nat)
    requires level < |Levels|
    ensures Pad(LevelName(level), LevelWidth) == PaddedLevels[level]
    ensures |Pad(LevelName(level), LevelWidth)| == LevelWidth
  {
    var name := LevelName(level);
    PadShort(name, LevelWidth);
    if level == DEBUG {
      assert Spaces(1) + name + Spaces(2) == PaddedLevels[level];
    } else if level == INFO {
      assert Spaces(2) + name + Spaces(2) == PaddedLevels[level];
    } else if level == WARNING {
      assert Spaces(0) + name + Spaces(1) == PaddedLevels[level];
    } else if level == ERROR {
      assert Spaces(1) + name + Spaces(2) == PaddedLevels[level];
    } else {
      assert Pad(name, LevelWidth) == PaddedLevels[level];
    }
  }

  // ---------------------------------------------------------------------
  // The record, the providers and the substitution table

  /** What the logger fills a placeholder with: a plain value (`time`,
      `token`), or a transformer (`level`) that centre-pads the record's
      current value for that key. */
  datatype Provider = Plain(value: string) | CentrePad(width: nat)

  /** The logger's providers, keyed by placeholder name. */
  function Providers(time: string, token: string): map<string, Provider>
  {
    map["time" := Plain(time), "token" := Plain(token), "level" := CentrePad(LevelWidth)]
  }

  /** The record a log call starts from: its text and its level name. */
  function Record(text: string, name: string): map<string, string>
  {
    map["text" := text, "level" := name]
  }

  function Lookup(m: map<string, string>, key: string): string
  {
    if key in m then m[key] else ""
  }

  /** One turn of the loop over the matches: a name without a provider is
      skipped, a plain value overwrites the key, a transformer rewrites it. */
  function Provide(m: map<string, string>, id: string, providers: map<string, Provider>): map<string, string>
  {
    if id !in providers then m
    else match providers[id]
      case Plain(v) => m[id := v]
      case CentrePad(w) => m[id := Pad(Lookup(m, id), w)]
  }

  /** The record after the loop has visited every identifier of `ids`, in order. */
  function Fill(m: map<string, string>, ids: seq<string>, providers: map<string, Provider>): map<string, string>
    decreases |ids|
  {
    if ids == [] then m
    else Provide(Fill(m, ids[..|ids| - 1], providers), ids[|ids| - 1], providers)
  }

  /** Every key `k` renamed to `$k`, its value kept. */
  function Dollar(m: map<string, string>): map<string, string>
  {
    DollarInjective();
    map k | k in m :: "$" + k := m[k]
  }

  lemma DollarInjective()
    ensures forall j, k :: "$" + j == "$" + k ==> j == k
  {
    forall j, k | "$" + j == "$" + k
      ensures j == k
    {
      assert ("$" + j)[1..] == j && ("$" + k)[1..] == k;
    }
  }

  /** Each key `k` of `m` appears in the renamed map as `$k`, with its value. */
  lemma DollarAt(m: map<string, string>, k: string)
    requires k in m
    ensures "$" + k in Dollar(m) && Dollar(m)["$" + k] == m[k]
  {
    DollarInjective();
  }

  /** Each key of the renamed map is `$` followed by a key of `m`. */
  lemma DollarKey(m: map<string, string>, x: string)
    requires x in Dollar(m)
    ensures |x| > 0 && x == "$" + x[1..] && x[1..] in m
  {
    var k :| k in m && x == "$" + k;
    assert x[1..] == k;
  }

  /** The renamed map holds `$k` for each key `k` of `m`, with the same
      value, and nothing else. */
  lemma DollarContents(m: map<string, string>)
    ensures var r := Dollar(m);
      && (forall k :: k in m ==> "$" + k in r && r["$" + k] == m[k])
      && (forall x :: x in r ==> |x| > 0 && x[0] == '$' && x[1..] in m && r[x] == m[x[1..]])
  {
    forall k | k in m
      ensures "$" + k in Dollar(m) && Dollar(m)["$" + k] == m[k]
    {
      DollarAt(m, k);
    }
    forall x | x in Dollar(m)
      ensures |x| > 0 && x[0] == '$' && x[1..] in m && Dollar(m)[x] == m[x[1..]]
    {
      DollarKey(m, x);
      DollarAt(m, x[1..]);
    }
  }

  /** The replacement pairs `log` hands to `strtr`. */
  function Table(text: string, name: string, ids: seq<string>, time: string, token: string): map<string, string>
  {
    Dollar(Fill(Record(text, name), ids, Providers(time, token)))
  }

  /** What `log` appends to the queue: the format with the table substituted. */
  function FormatLine(format: string, text: string, name: string, time: string, token: string): string
  {
    Strtr(format, Table(text, name, Placeholders(format), time, token))
  }

  /** The level field of the record after the loop: padded once the format
      mentions `$level`, the bare name otherwise. */
  function LevelField(name: string, ids: seq<string>): string
  {
    if "level" in ids then Pad(name, LevelWidth) else name
  }

  /** `m` holds provided names only: the text, the level field, and the
      time and token exactly when `ids` mentions them. */
  predicate RecordFacts(m: map<string, string>, ids: seq<string>, text: string, name: string, time: string, token: string)
  {
    && (forall k :: k in m ==> Provided(k))
    && "text" in m && m["text"] == text
    && "level" in m && m["level"] == LevelField(name, ids)
    && ("time" in m <==> "time" in ids) && ("time" in ids ==> m["time"] == time)
    && ("token" in m <==> "token" in ids) && ("token" in ids ==> m["token"] == token)
  }

  /** One more turn of the loop keeps the record in that shape; a second
      `$level` pads the padded name again, which leaves it as it is. */
  lemma ProvideStep(m: map<string, string>, init: seq<string>, last: string,
                    text: string, name: string, time: string, token: string)
    requires RecordFacts(m, init, text, name, time, token)
    ensures RecordFacts(Provide(m, last, Providers(time, token)), init + [last], text, name, time, token)
  {
    var ids := init + [last];
    assert forall x :: x in ids <==> x in init || x == last;
    var p := Pad(name, LevelWidth);
    assert |name| < LevelWidth ==> |p| == LevelWidth;
    assert Pad(p, LevelWidth) == p;
  }

  /** The record after the loop holds the text, the level field, and the
      time and token exactly when the format mentions them; a repeated
      `$level` pads only once, since padding an eight-wide name is a no-op. */
  lemma {:induction false} FillContents(ids: seq<string>, text: string, name: string, time: string, token: string)
    ensures RecordFacts(Fill(Record(text, name), ids, Providers(time, token)), ids, text, name, time, token)
    decreases |ids|
  {
    if ids == [] {
      assert Fill(Record(text, name), ids, Providers(time, token)) == Record(text, name);
    } else {
      var init, last := ids[..|ids| - 1], ids[|ids| - 1];
      assert ids == init + [last];
      FillContents(init, text, name, time, token);
      ProvideStep(Fill(Record(text, name), init, Providers(time, token)), init, last, text, name, time, token);
    }
  }

  /** The names the logger has a value for: the record's own two fields and
      the two plain providers. */
  predicate Provided(id: string)
  {
    id == "text" || id == "level" || id == "time" || id == "token"
  }

  /** `t` holds exactly `$text`, `$level`, and `$time` and `$token` when the
      scanned identifiers `ids` include them, with the values the providers
      give. */
  predicate TableFacts(t: map<string, string>, ids: seq<string>, text: string, name: string, time: string, token: string)
  {
    && (forall k :: k in t ==> |k| >= 2 && k[0] == '$' && Provided(k[1..]))
    && "$" + "text" in t && t["$" + "text"] == text
    && "$" + "level" in t && t["$" + "level"] == LevelField(name, ids)
    && ("$" + "time" in t <==> "time" in ids) && ("time" in ids ==> t["$" + "time"] == time)
    && ("$" + "token" in t <==> "token" in ids) && ("token" in ids ==> t["$" + "token"] == token)
  }

  /** The replacement pairs are exactly `$text`, `$level`, and `$time` and
      `$token` when the format mentions them, with the values the providers
      give; every other `$identifier` has no pair. */
  lemma TableContents(ids: seq<string>, text: string, name: string, time: string, token: string)
    ensures TableFacts(Table(text, name, ids, time, token), ids, text, name, time, token)
  {
    FillContents(ids, text, name, time, token);
    RenamedFacts(Fill(Record(text, name), ids, Providers(time, token)), ids, text, name, time, token);
  }

  /** Renaming the keys of a record of that shape gives a table of that shape. */
  lemma RenamedFacts(m: map<string, string>, ids: seq<string>, text: string, name: string, time: string, token: string)
    requires RecordFacts(m, ids, text, name, time, token)
    ensures TableFacts(Dollar(m), ids, text, name, time, token)
  {
    RenamedShape(m, ids, text, name, time, token);
    DollarAt(m, "text");
    DollarAt(m, "level");
    OptionalPair(m, "time", ids, time);
    OptionalPair(m, "token", ids, token);
  }

  /** A key the record holds exactly when the format mentions it. */
  lemma OptionalPair(m: map<string, string>, k: string, ids: seq<string>, v: string)
    requires k in m <==> k in ids
    requires k in ids ==> m[k] == v
    ensures "$" + k in Dollar(m) <==> k in ids
    ensures k in ids ==> Dollar(m)["$" + k] == v
  {
    DollarBack(m, k);
    if k in ids {
      DollarAt(m, k);
    }
  }

  lemma RenamedShape(m: map<string, string>, ids: seq<string>, text: string, name: string, time: string, token: string)
    requires RecordFacts(m, ids, text, name, time, token)
    ensures forall x :: x in Dollar(m) ==> |x| >= 2 && x[0] == '$' && Provided(x[1..])
  {
    forall x | x in Dollar(m)
      ensures |x| >= 2 && x[0] == '$' && Provided(x[1..])
    {
      DollarKey(m, x);
    }
  }

  /** Only a key of `m` comes back as `$` and that key. */
  lemma DollarBack(m: map<string, string>, k: string)
    ensures "$" + k in Dollar(m) ==> k in m
  {
    if "$" + k in Dollar(m) {
      DollarKey(m, "$" + k);
      DropDollar(k);
    }
  }

  lemma DropDollar(id: string)
    ensures ("$" + id)[1..] == id
  {
  }
}
