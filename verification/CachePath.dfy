/**
  Which file a key of the disk cache names (`_file_path` in src/core/mail_proxy/smtp/cache.py): the
  cache directory, joined with the first two characters of the key, joined with the key.  Joining
  drops empty and "." components, and an absolute part replaces what stands before it.
 */
module CachePath {
  import opened Text
  import M = MemoryCache

  /** A file of the cache, by the key it is stored under; no file; or a place outside the directory. */
  datatype Place = Inside(key: M.Key) | Nowhere | Beyond

  /** The name of the subdirectory. */
  function Shard(name: string): string {
    if |name| < 2 then name else name[..2]
  }

  /** The components of a relative path that count. */
  function Names(path: string): seq<string> {
    Kept(Split(path, '/'))
  }

  function Kept(parts: seq<string>): seq<string> {
    if parts == [] then []
    else (if parts[0] == "" || parts[0] == "." then [] else [parts[0]]) + Kept(parts[1..])
  }

  function Steps(k: M.Key): seq<string> {
    Names(Shard(k.md5)) + Names(k.md5)
  }

  /**
    Where the file of a key is looked for.  Two components name a file of the cache if the first is
    the subdirectory of the second; fewer name a directory, more lead through a file.  A path that
    is absolute or steps up can lead anywhere.
   */
  function Locate(k: M.Key): Place {
    var steps := Steps(k);
    if (k.md5 != "" && k.md5[0] == '/') || ".." in steps then Beyond
    else if |steps| == 2 && steps[0] == Shard(steps[1]) then Inside(M.Key(steps[1]))
    else Nowhere
  }

  /** Keys that are nothing but the name of a file. */
  predicate PlainName(name: string) {
    name != "" && name != "." && '/' !in name && Shard(name) != ".."
  }

  lemma NamesOfPlain(name: string)
    requires name != "" && name != "." && '/' !in name
    ensures Names(name) == [name]
  {
    SplitWhole(name, '/');
    assert [name][1..] == [];
    assert Kept([name]) == [name] + Kept([]);
  }

  lemma {:induction false} KeptNames(parts: seq<string>)
    requires forall part :: part in parts ==> '/' !in part
    ensures forall name :: name in Kept(parts) ==> name != "" && name != "." && '/' !in name
  {
    if parts != [] {
      assert forall part :: part in parts[1..] ==> part in parts;
      KeptNames(parts[1..]);
    }
  }

  lemma NamesArePlain(path: string)
    ensures forall name :: name in Names(path) ==> name != "" && name != "." && '/' !in name
  {
    PartsSepFree(path, '/');
    forall part | part in Split(path, '/')
      ensures '/' !in part
    {
      var i :| 0 <= i < |Split(path, '/')| && Split(path, '/')[i] == part;
    }
    KeptNames(Split(path, '/'));
  }

  /** The files of the cache are those of plain keys. */
  lemma InsideIsPlain(k: M.Key)
    ensures Locate(k).Inside? ==> PlainName(Locate(k).key.md5)
  {
    if Locate(k).Inside? {
      var steps := Steps(k);
      NamesArePlain(Shard(k.md5));
      NamesArePlain(k.md5);
      assert steps[0] in steps && steps[1] in steps;
    }
  }

  /** Exactly the plain keys name the file stored under them; so different ones name different files. */
  lemma PlainIff(k: M.Key)
    ensures Locate(k) == Inside(k) <==> PlainName(k.md5)
  {
    if PlainName(k.md5) {
      NamesOfPlain(k.md5);
      NamesOfPlain(Shard(k.md5));
      assert Steps(k) == [Shard(k.md5), k.md5];
    }
    InsideIsPlain(k);
  }

  /** Which keys may lead anywhere: those that begin with a slash, or step up in a component. */
  lemma BeyondIff(k: M.Key)
    ensures Locate(k).Beyond? <==>
              || (k.md5 != "" && k.md5[0] == '/')
              || ".." in Split(k.md5, '/') || ".." in Split(if |k.md5| < 2 then k.md5 else k.md5[..2], '/')
  {
    KeptDoubleDots(Split(k.md5, '/'));
    KeptDoubleDots(Split(Shard(k.md5), '/'));
  }

  lemma {:induction false} KeptDoubleDots(parts: seq<string>)
    ensures ".." in Kept(parts) <==> ".." in parts
  {
    if parts != [] {
      KeptDoubleDots(parts[1..]);
      assert parts == [parts[0]] + parts[1..];
    }
  }

  /** Every file of the cache has another key that names it. */
  function Alias(k: M.Key): M.Key {
    M.Key("./" + Shard(k.md5) + "/" + k.md5)
  }

  lemma {:induction false} KeptAll(parts: seq<string>)
    requires forall i :: 0 <= i < |parts| ==> parts[i] != "" && parts[i] != "."
    ensures Kept(parts) == parts
  {
    if parts != [] {
      KeptAll(parts[1..]);
    }
  }

  /** A leading "." component changes nothing. */
  lemma DotDropped(path: string)
    ensures Names("./" + path) == Names(path)
  {
    SplitFirst(".", path, '/');
    assert "./" + path == "." + ['/'] + path;
    assert (["."] + Split(path, '/'))[1..] == Split(path, '/');
  }

  lemma NamesOfPair(a: string, b: string)
    requires a != "" && a != "." && '/' !in a && b != "" && b != "." && '/' !in b
    ensures Names(a + "/" + b) == [a, b]
  {
    SplitFirst(a, b, '/');
    SplitWhole(b, '/');
    assert a + "/" + b == a + ['/'] + b;
    KeptAll([a, b]);
  }

  lemma AliasNamesFile(k: M.Key)
    requires PlainName(k.md5)
    ensures Alias(k) != k && Locate(Alias(k)) == Inside(k)
  {
    var rest := Shard(k.md5) + "/" + k.md5;
    assert Alias(k).md5 == "./" + rest;
    assert Shard(Alias(k).md5) == "./" + "";
    DotDropped("");
    assert Kept([""]) == [] by {
      assert [""][1..] == [];
    }
    assert Names("") == [];
    DotDropped(rest);
    NamesOfPair(Shard(k.md5), k.md5);
    assert Steps(Alias(k)) == [Shard(k.md5), k.md5];
  }
}
