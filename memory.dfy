/** Remembering uploaded files across reruns in the session map, under a
    suffixed key, and reading every remembered file back. */
module Memory {
  import opened Seqs
  import opened FileTypes
  import opened Session
  import Cache

  const MemorizedFileSuffix := "_memorized_file"

  /** The session key of a memorized file: its name followed by the suffix. */
  function MemorizedFileKeyFromFile(file: File): (key: string)
    ensures |key| == |file.name| + |MemorizedFileSuffix|
    ensures key[..|file.name|] == file.name && EndsWith(key, MemorizedFileSuffix)
  {
    file.name + MemorizedFileSuffix
  }

  /** Takes a session item (key, value). */
  predicate IsMemorizedFile(item: (string, Value))
  {
    EndsWith(item.0, MemorizedFileSuffix)
  }

  /** `key[:-len(suffix)]`. */
  function FileNameFromMemorizedFileKey(key: string): (name: string)
    ensures EndsWith(key, MemorizedFileSuffix) ==> name + MemorizedFileSuffix == key
    ensures |key| < |MemorizedFileSuffix| ==> name == ""
  {
    DropLast(key, |MemorizedFileSuffix|)
  }

  function FileFromMemorizedFile(item: (string, Value)): (file: File)
    requires item.1.FileBytes?
    ensures IsMemorizedFile(item) ==> MemorizedFileKeyFromFile(file) == item.0
    ensures FileBytes(file.value) == item.1
  {
    assert IsMemorizedFile(item) ==> FileNameFromMemorizedFileKey(item.0) + MemorizedFileSuffix == item.0 by {
      if IsMemorizedFile(item) {
        MemorizedKeyRoundTrip(item.0);
      }
    }
    File(FileNameFromMemorizedFileKey(item.0), item.1.bytes)
  }

  /** From a file to its key and back gives the file's name, and the key is recognised as a memorized one. */
  lemma FileKeyRoundTrip(file: File, v: Value)
    ensures IsMemorizedFile((MemorizedFileKeyFromFile(file), v))
    ensures FileNameFromMemorizedFileKey(MemorizedFileKeyFromFile(file)) == file.name
  {
    EndsWithConcat(file.name, MemorizedFileSuffix);
    assert (file.name + MemorizedFileSuffix)[..|file.name|] == file.name;
  }

  /** From a memorized key to its file name and back gives the key. */
  lemma MemorizedKeyRoundTrip(key: string)
    requires EndsWith(key, MemorizedFileSuffix)
    ensures FileNameFromMemorizedFileKey(key) + MemorizedFileSuffix == key
  {
  }

  /** Two files share a memorized key exactly when their names are equal. */
  lemma MemorizedKeySharedIffSameName(a: File, b: File)
    ensures MemorizedFileKeyFromFile(a) == MemorizedFileKeyFromFile(b) <==> a.name == b.name
  {
    if MemorizedFileKeyFromFile(a) == MemorizedFileKeyFromFile(b) {
      AppendSuffixInjective(a.name, b.name, MemorizedFileSuffix);
    }
  }

  /** The store after memorizing `files` in order. */
  function MemorizeAll(m: Store, files: seq<File>): Store
  {
    if files == [] then m
    else MemorizeAll(m, Init(files))[MemorizedFileKeyFromFile(Last(files)) := FileBytes(Last(files).value)]
  }

  method MemorizeFiles(session: SessionState, files: seq<File>)
    modifies session
    ensures session.entries == MemorizeAll(old(session.entries), files)
  {
    for i := 0 to |files|
      invariant session.entries == MemorizeAll(old(session.entries), files[..i])
    {
      assert files[..i + 1][..i] == files[..i];
      var key := MemorizedFileKeyFromFile(files[i]);
      ghost var before := session.entries;
      if key in session.entries {
        session.entries := session.entries - {key};
      }
      session.entries := session.entries[key := FileBytes(files[i].value)];
      // deleting first and then setting leaves the same map as setting alone
      assert session.entries == before[key := FileBytes(files[i].value)];
    }
    assert files[..|files|] == files;
  }

  /** Memorizing leaves every key that is not the memorized key of one of the files as it was. */
  lemma {:induction false} MemorizeAllFrame(m: Store, files: seq<File>, key: string)
    requires forall f :: f in files ==> MemorizedFileKeyFromFile(f) != key
    ensures key in MemorizeAll(m, files) <==> key in m
    ensures key in m ==> MemorizeAll(m, files)[key] == m[key]
  {
    if files != [] {
      MemorizeAllFrame(m, Init(files), key);
    }
  }

  /** After memorizing, a file's key holds its bytes unless a later file has the same name. */
  lemma {:induction false} MemorizeAllLastWins(m: Store, files: seq<File>, i: nat)
    requires i < |files|
    requires forall j :: i < j < |files| ==> files[j].name != files[i].name
    ensures MemorizedFileKeyFromFile(files[i]) in MemorizeAll(m, files)
    ensures MemorizeAll(m, files)[MemorizedFileKeyFromFile(files[i])] == FileBytes(files[i].value)
  {
    if i < |files| - 1 {
      MemorizeAllLastWins(m, Init(files), i);
      MemorizedKeySharedIffSameName(files[i], Last(files));
    }
  }

  /** Every key of the session that ends with the memorized suffix, whoever wrote it. */
  function MemorizedKeys(m: Store): set<string>
  {
    set k | k in m && IsMemorizedFile((k, m[k]))
  }

  predicate MemorizedEntriesHoldBytes(m: Store)
  {
    forall k :: k in m && IsMemorizedFile((k, m[k])) ==> m[k].FileBytes?
  }

  /** The memorized keys of `files`. */
  function MemorizedKeysOf(files: seq<File>): set<string>
  {
    if files == [] then {} else MemorizedKeysOf(Init(files)) + {MemorizedFileKeyFromFile(Last(files))}
  }

  /** What reading memory has built after visiting the keys outside `remaining`: one file per visited
      key, named by the key without its suffix and holding the stored bytes. */
  ghost predicate Collected(m: Store, remaining: set<string>, files: seq<File>)
  {
    && remaining <= MemorizedKeys(m)
    && |files| + |remaining| == |MemorizedKeys(m)|
    && MemorizedKeysOf(files) == MemorizedKeys(m) - remaining
    && Distinct(Names(files))
    && forall i :: 0 <= i < |files| ==>
      MemorizedFileKeyFromFile(files[i]) in MemorizedKeys(m) - remaining &&
      m[MemorizedFileKeyFromFile(files[i])] == FileBytes(files[i].value)
  }

  /** Visiting one more memorized key keeps `Collected`. */
  lemma CollectOneMore(m: Store, remaining: set<string>, files: seq<File>, key: string)
    requires MemorizedEntriesHoldBytes(m) && Collected(m, remaining, files) && key in remaining
    ensures Collected(m, remaining - {key}, files + [FileFromMemorizedFile((key, m[key]))])
  {
    var file := FileFromMemorizedFile((key, m[key]));
    forall i | 0 <= i < |files|
      ensures files[i].name != file.name
    {
      MemorizedKeySharedIffSameName(files[i], file);
    }
    NamesSnoc(files, file);
    DistinctSnoc(Names(files), file.name);
    assert Init(files + [file]) == files;
  }

  /** One file per memorized key, named by the key without its suffix and holding the stored bytes.
      The session's iteration order is not specified, so any order is allowed. */
  method GetFilesFromMemory(session: SessionState) returns (files: seq<File>)
    requires MemorizedEntriesHoldBytes(session.entries)
    ensures |files| == |MemorizedKeys(session.entries)|
    ensures MemorizedKeysOf(files) == MemorizedKeys(session.entries)
    ensures Distinct(Names(files))
    ensures forall i :: 0 <= i < |files| ==>
      MemorizedFileKeyFromFile(files[i]) in session.entries &&
      session.entries[MemorizedFileKeyFromFile(files[i])] == FileBytes(files[i].value)
  {
    var remaining := MemorizedKeys(session.entries);
    files := [];
    while remaining != {}
      invariant Collected(session.entries, remaining, files)
      decreases remaining
    {
      var key :| key in remaining;
      CollectOneMore(session.entries, remaining, files, key);
      files := files + [FileFromMemorizedFile((key, session.entries[key]))];
      remaining := remaining - {key};
    }
  }

  /** Keys written by other modules count too: a file cached under the name
      `x_memorized_file` is read back from memory as a file named `x`. */
  lemma CachedFileWithSuffixIsRemembered(m: Store, x: string, bytes: seq<byte>)
    ensures var m' := m[Cache.FileKey(x + MemorizedFileSuffix) := FileBytes(bytes)];
      x + MemorizedFileSuffix in MemorizedKeys(m') &&
      FileFromMemorizedFile((x + MemorizedFileSuffix, m'[x + MemorizedFileSuffix])) == File(x, bytes)
  {
    FileKeyRoundTrip(File(x, bytes), FileBytes(bytes));
  }
}
