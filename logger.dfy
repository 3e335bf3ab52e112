/** The logger object: its options, the queue of formatted lines that all
    loggers share, the file those lines are appended to, `log`, `write`, and
    the five level methods (`debug`, `info`, `warning`, `error`,
    `critical`) dispatched through `__call`. */
module Logging {
  import opened Php
  import opened StringTranslate
  import opened Template

  /** The options a logger starts from. */
  const Defaults: map<string, Value> :=
    map["file" := Str("app.log"), "auto_write" := Bool(true), "format" := Str(DefaultFormat)]

  /** `$options + $this->options`: the caller's value for every key the
      caller gives, the default for every default key the caller omits,
      and any extra key of the caller kept as it is. */
  lemma MergedOptions(given: map<string, Value>)
    ensures var r := Union(given, Defaults);
      && r.Keys == given.Keys + {"file", "auto_write", "format"}
      && r["file"] == (if "file" in given then given["file"] else Str("app.log"))
      && r["auto_write"] == (if "auto_write" in given then given["auto_write"] else Bool(true))
      && r["format"] == (if "format" in given then given["format"] else Str(DefaultFormat))
      && (forall k :: k in given ==> r[k] == given[k])
  {
    assert Defaults.Keys == {"file", "auto_write", "format"};
  }

  // ---------------------------------------------------------------------
  // Choosing the text of a level call

  /** The replacement pairs of an array argument, its values cast to string. */
  function Pairs(entries: map<string, Value>): map<string, string>
  {
    map k | k in entries :: ToStr(entries[k])
  }

  /** The text `__call` logs, given the first argument `text` and the
      arguments after it, `extra`: with no second argument (or a null one)
      the text as it is; with an array, the text with the array's pairs
      substituted by strtr; with a string, `vsprintf` of the text over all
      the extra arguments; with anything else, the text as it is. */
  function SelectText(text: string, extra: seq<Value>, sprintf: (string, seq<Value>) -> string): string
  {
    if extra == [] || extra[0].Null? then text
    else if extra[0].Arr? then Strtr(text, Pairs(extra[0].entries))
    else if extra[0].Str? then sprintf(text, extra)
    else text
  }

  /** An empty array as second argument leaves the text as it is. */
  lemma EmptyArgumentArray(text: string, rest: seq<Value>, sprintf: (string, seq<Value>) -> string)
    ensures SelectText(text, [Arr(map[])] + rest, sprintf) == text
  {
    assert Pairs(map[]) == map[];
    EmptyTable(text);
  }

  /** `info('user :id logged in', [':id' => 42])`: a key that occurs exactly
      once in the text is replaced by its value cast to string, and the rest
      of the text is copied. */
  lemma ArgumentInterpolation(a: string, key: string, b: string, v: Value,
                              rest: seq<Value>, sprintf: (string, seq<Value>) -> string)
    requires key != []
    requires forall i: nat :: OccursAt(a + key + b, key, i) ==> i == |a|
    ensures SelectText(a + key + b, [Arr(map[key := v])] + rest, sprintf) == a + ToStr(v) + b
  {
    PairsSingle(key, v);
    SingleOccurrence(a, key, b, ToStr(v));
  }

  lemma PairsSingle(key: string, v: Value)
    ensures Pairs(map[key := v]) == map[key := ToStr(v)]
  {
  }

  // ---------------------------------------------------------------------
  // The destination file

  /** What appending each message and a newline writes. */
  function Lines(ms: seq<string>): string
    decreases |ms|
  {
    if ms == [] then [] else Lines(ms[..|ms| - 1]) + ms[|ms| - 1] + "\n"
  }

  lemma {:induction false} LinesAppend(a: seq<string>, b: seq<string>)
    ensures Lines(a + b) == Lines(a) + Lines(b)
    decreases |b|
  {
    if b == [] {
      assert a + b == a;
    } else {
      var init := b[..|b| - 1];
      assert (a + b)[..|a + b| - 1] == a + init;
      assert (a + b)[|a + b| - 1] == b[|b| - 1];
      LinesAppend(a, init);
    }
  }

  /** The contents of a file; a missing file reads as empty, as
      `file_put_contents` with `FILE_APPEND` creates it. */
  function Get(files: map<string, string>, path: string): string
  {
    if path in files then files[path] else ""
  }

  /** The files after `write` has appended the messages `ms` to `path`. */
  function Flushed(files: map<string, string>, path: string, ms: seq<string>): map<string, string>
  {
    if ms == [] then files else files[path := Get(files, path) + Lines(ms)]
  }

  /** A flush appends to its own file only: every other file is as it was. */
  lemma FlushedElsewhere(files: map<string, string>, path: string, ms: seq<string>, q: string)
    requires q != path
    ensures q in Flushed(files, path, ms) <==> q in files
    ensures q in files ==> Flushed(files, path, ms)[q] == files[q]
  {
  }

  /** Writing in two rounds gives the same file as writing once. */
  lemma FlushCompose(files: map<string, string>, path: string, a: seq<string>, b: seq<string>)
    ensures Flushed(Flushed(files, path, a), path, b) == Flushed(files, path, a + b)
  {
    if a == [] {
      assert a + b == b;
    } else if b == [] {
      assert a + b == a;
    } else {
      LinesAppend(a, b);
      AppendTwice(files, path, Lines(a), Lines(b));
    }
  }

  /** Two appends to one file are one append of both. */
  lemma AppendTwice(files: map<string, string>, path: string, x: string, y: string)
    ensures var f := files[path := Get(files, path) + x];
      f[path := Get(f, path) + y] == files[path := Get(files, path) + (x + y)]
  {
    var f := files[path := Get(files, path) + x];
    assert Get(f, path) + y == Get(files, path) + (x + y);
  }

  /** Appending one more message extends the file by that message and a newline. */
  lemma FlushStep(files: map<string, string>, path: string, ms: seq<string>, m: string)
    ensures Flushed(files, path, ms + [m])
      == Flushed(files, path, ms)[path := Get(Flushed(files, path, ms), path) + m + "\n"]
  {
    FlushCompose(files, path, ms, [m]);
    LinesSingle(m);
    var f := Flushed(files, path, ms);
    assert Get(f, path) + (m + "\n") == Get(f, path) + m + "\n";
  }

  lemma LinesSingle(m: string)
    ensures Lines([m]) == m + "\n"
  {
    assert [m][..0] == [];
  }

  /** After a flush that ends with `line`, the file ends with `line` and a
      newline: the line is the last one written. */
  lemma LastLineWritten(files: map<string, string>, path: string, ms: seq<string>, line: string)
    ensures var c := Get(Flushed(files, path, ms + [line]), path);
      |c| > |line| && c[|c| - |line| - 1..] == line + "\n"
  {
    LinesAppend(ms, [line]);
    assert [line][..0] == [];
    var c := Get(Flushed(files, path, ms + [line]), path);
    assert c == Get(files, path) + Lines(ms) + (line + "\n");
  }

  // ---------------------------------------------------------------------
  // The shared state

  /** The static `$messages` array: the formatted lines not yet written.
      Every logger holds the same queue object. */
  class MessageQueue {
    var messages: seq<string>

    constructor()
      ensures messages == []
    {
      messages := [];
    }

    /** `self::$messages[] = $line` */
    method Push(line: string)
      modifies this
      ensures messages == old(messages) + [line]
    {
      messages := messages + [line];
    }

    /** `unset(self::$messages[$index])` for the oldest entry. */
    method RemoveFirst()
      requires messages != []
      modifies this
      ensures messages == old(messages)[1..]
    {
      messages := messages[1..];
    }
  }

  /** The file system, as the contents of each file by path. */
  class Disk {
    var files: map<string, string>

    constructor(files: map<string, string>)
      ensures this.files == files
    {
      this.files := files;
    }

    /** `file_put_contents($path, $data, FILE_APPEND)` */
    method Append(path: string, data: string)
      modifies this
      ensures files == old(files)[path := Get(old(files), path) + data]
    {
      files := files[path := Get(files, path) + data];
    }
  }

  class Logger {
    const options: map<string, Value>
    /** The per-instance token, fixed when the logger is made. */
    const token: string
    const queue: MessageQueue
    const disk: Disk

    /** The options the logger works with: a file name and a format that
        are strings, and an `auto_write` flag. */
    predicate Valid()
    {
      && "file" in options && options["file"].Str?
      && "format" in options && options["format"].Str?
      && "auto_write" in options
    }

    function File(): string
      requires Valid()
    {
      options["file"].s
    }

    function Format(): string
      requires Valid()
    {
      options["format"].s
    }

    predicate AutoWrite()
      requires Valid()
    {
      Truthy(options["auto_write"])
    }

    /** `new Logger($options)`: the caller's options over the defaults. */
    constructor(given: map<string, Value>, token: string, queue: MessageQueue, disk: Disk)
      requires "file" in given ==> given["file"].Str?
      requires "format" in given ==> given["format"].Str?
      ensures options == Union(given, Defaults)
      ensures this.token == token && this.queue == queue && this.disk == disk
      ensures Valid()
    {
      options := Union(given, Defaults);
      this.token := token;
      this.queue := queue;
      this.disk := disk;
    }

    /** What a call that formats `line` leaves behind, from the queue `q0`
        and the files `f0` before it: with `auto_write` the whole queue,
        `line` last, has been appended to the file and the queue is empty;
        without it `line` is queued after the earlier entries and the files
        are untouched. */
    ghost predicate Logged(line: string, q0: seq<string>, f0: map<string, string>)
      requires Valid()
      reads queue, disk
    {
      if AutoWrite() then queue.messages == [] && disk.files == Flushed(f0, File(), q0 + [line])
      else queue.messages == q0 + [line] && disk.files == f0
    }

    /** `log($text, $level = self::INFO)`: format one line and queue it,
        writing at once when `auto_write` is set. */
    method Log(text: string, time: string, level: nat := INFO)
      requires Valid()
      requires level < |Levels|
      modifies queue, disk
      ensures Logged(FormatLine(Format(), text, LevelName(level), time, token),
                     old(queue.messages), old(disk.files))
    {
      ghost var q0, f0 := queue.messages, disk.files;
      var line := FormatMessage(Format(), text, LevelName(level), time, token);
      queue.Push(line);
      assert disk.files == f0;
      if AutoWrite() {
        Write();
        assert queue.messages == [] && disk.files == Flushed(f0, File(), q0 + [line]);
      } else {
        assert queue.messages == q0 + [line] && disk.files == f0;
      }
    }

    /** `write()`: append every queued line and a newline to the file, in
        queue order, emptying the queue. */
    method Write()
      requires Valid()
      modifies queue, disk
      ensures queue.messages == []
      ensures disk.files == Flushed(old(disk.files), File(), old(queue.messages))
      ensures old(queue.messages) == [] ==> disk.files == old(disk.files)
    {
      var pending := queue.messages;
      var i := 0;
      while i < |pending|
        invariant 0 <= i <= |pending|
        invariant queue.messages == pending[i..]
        invariant disk.files == Flushed(old(disk.files), File(), pending[..i])
      {
        queue.RemoveFirst();
        FlushStep(old(disk.files), File(), pending[..i], pending[i]);
        var before := Get(disk.files, File());
        disk.Append(File(), pending[i] + "\n");
        assert before + (pending[i] + "\n") == before + pending[i] + "\n";
        assert pending[..i + 1] == pending[..i] + [pending[i]];
        i := i + 1;
      }
      assert pending[..|pending|] == pending;
    }

    /** `$logger->name($text, ...$extra)`: a name outside the five levels
        does nothing; a level name logs the selected text at the index of
        that name. */
    method Call(name: string, text: string, extra: seq<Value>, time: string,
                sprintf: (string, seq<Value>) -> string)
      requires Valid()
      modifies queue, disk
      ensures name !in Levels ==> queue.messages == old(queue.messages) && disk.files == old(disk.files)
      ensures name in Levels ==> LevelIndex(name).Some? && LevelName(LevelIndex(name).value) == name
      ensures name in Levels && (extra == [] || !(extra[0].Arr? || extra[0].Str?)) ==>
        Logged(FormatLine(Format(), text, name, time, token), old(queue.messages), old(disk.files))
      ensures name in Levels && extra != [] && extra[0].Arr? ==>
        Logged(FormatLine(Format(), Strtr(text, Pairs(extra[0].entries)), name, time, token),
               old(queue.messages), old(disk.files))
      ensures name in Levels && extra != [] && extra[0].Str? ==>
        Logged(FormatLine(Format(), sprintf(text, extra), name, time, token),
               old(queue.messages), old(disk.files))
    {
      if name in Levels {
        var chosen := SelectText(text, extra, sprintf);
        var index := LevelIndex(name);
        Log(chosen, time, index.value);
      }
    }
  }

  /** The formatting half of `log`: the record, the loop over the matches,
      the renaming of the keys, and the substitution. */
  method FormatMessage(format: string, text: string, name: string, time: string, token: string)
    returns (line: string)
    ensures line == FormatLine(format, text, name, time, token)
  {
    var message := FillMessage(Record(text, name), Placeholders(format), Providers(time, token));
    var table := RenameKeys(message);
    line := Strtr(format, table);
  }

  /** The loop over the matches of the format (`foreach ($matches as $match)`):
      each identifier with a provider has its value filled in, in order. */
  method FillMessage(record: map<string, string>, ids: seq<string>, providers: map<string, Provider>)
    returns (message: map<string, string>)
    ensures message == Fill(record, ids, providers)
  {
    message := record;
    var i := 0;
    while i < |ids|
      invariant 0 <= i <= |ids|
      invariant message == Fill(record, ids[..i], providers)
    {
      var id := ids[i];
      assert ids[..i + 1][..i] == ids[..i];
      if id in providers {
        match providers[id]
        case Plain(v) =>
          message := message[id := v];
        case CentrePad(w) =>
          message := message[id := Pad(Lookup(message, id), w)];
      }
      i := i + 1;
    }
    assert ids[..|ids|] == ids;
  }

  /** The loop that renames every key `k` of the message to `$k`. */
  method RenameKeys(message: map<string, string>) returns (table: map<string, string>)
    ensures table == Dollar(message)
  {
    table := map[];
    var todo := message.Keys;
    assert message - todo == map[];
    DollarEmpty();
    while todo != {}
      invariant todo <= message.Keys
      invariant table == Dollar(message - todo)
      decreases |todo|
    {
      var k :| k in todo;
      RenameStep(message, todo, k);
      table := table["$" + k := message[k]];
      todo := todo - {k};
    }
    assert message - todo == message;
  }

  lemma DollarEmpty()
    ensures Dollar(map[]) == map[]
  {
  }

  lemma RenameStep(message: map<string, string>, todo: set<string>, k: string)
    requires k in todo && todo <= message.Keys
    ensures Dollar(message - (todo - {k})) == Dollar(message - todo)["$" + k := message[k]]
  {
    assert message - (todo - {k}) == (message - todo)[k := message[k]];
    DollarAdd(message - todo, k, message[k]);
  }

  /** Renaming one more key extends the renamed map by one pair. */
  lemma DollarAdd(m: map<string, string>, k: string, v: string)
    requires k !in m
    ensures Dollar(m[k := v]) == Dollar(m)["$" + k := v]
  {
    var l := Dollar(m[k := v]);
    var r := Dollar(m)["$" + k := v];
    forall x | x in l
      ensures x in r && l[x] == r[x]
    {
      DollarKey(m[k := v], x);
      DollarAt(m[k := v], x[1..]);
      if x[1..] != k {
        DollarAt(m, x[1..]);
      }
    }
    forall x | x in r
      ensures x in l
    {
      if x == "$" + k {
        DollarAt(m[k := v], k);
      } else {
        DollarKey(m, x);
        DollarAt(m[k := v], x[1..]);
      }
    }
    assert l.Keys == r.Keys;
  }
}
