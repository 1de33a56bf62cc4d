/**
 Getting and setting in `libbb/bb_persist.c` in their own form: reading line by line, and
 rewriting into a temporary file that is renamed over the old one.
 */
module ConfigStore {
  import opened Options
  import opened TextLines
  import opened ConfigFile

  // Since `was`, the name stood for c and nothing else.
  ghost predicate Only(was: seq<Option<string>>, now: seq<Option<string>>, c: Option<string>) {
    was <= now && forall i :: |was| <= i < |now| ==> now[i] == c
  }

  // Since `was`, the name stood for c until it came to stand for d.
  ghost predicate OldThenNew(was: seq<Option<string>>, now: seq<Option<string>>, c: Option<string>, d: Option<string>) {
    |was| < |now| && now[|now| - 1] == d && Only(was, now[..|now| - 1], c)
  }

  class Store {
    var conf: Option<string>     // the file of the name, if there is one
    var tmp: Option<string>      // the temporary file beside it
    ghost var seen: seq<Option<string>>     // what the name stood for after each file operation

    constructor ()
      ensures conf == None && tmp == None && seen == []
    {
      conf, tmp, seen := None, None, [];
    }

    // fopen for writing
    method Create()
      modifies this
      ensures tmp == Some("") && conf == old(conf) && seen == old(seen) + [conf]
    {
      tmp := Some("");
      seen := seen + [conf];
    }

    method Append(s: string)
      requires tmp.Some?
      modifies this
      ensures tmp == Some(old(tmp.value) + s) && conf == old(conf) && seen == old(seen) + [conf]
    {
      tmp := Some(tmp.value + s);
      seen := seen + [conf];
    }

    method Rename()
      requires tmp.Some?
      modifies this
      ensures conf == old(tmp) && tmp == None && seen == old(seen) + [conf]
    {
      conf, tmp := tmp, None;
      seen := seen + [conf];
    }

    method ConfigGet(key: string) returns (value: Option<string>)
      ensures value == Get(conf, key)
    {
      if conf.None? {
        return None;
      }
      var rest := conf.value;
      while rest != []
        invariant Find(Lines(rest), key) == Get(conf, key)
        decreases |rest|
      {
        var line, more := Fgets(rest, ROOM);
        FindFirst(line, Lines(more), key);
        if Matches(line, key) {
          value := Some(StripEnd(line[|key| + 1..]));
          return;
        }
        rest := more;
      }
      value := None;
    }

    // The loop that copies the old file's lines
    method CopyLines(text: string, key: string, value: string) returns (replaced: bool)
      requires tmp == Some("")
      modifies this
      ensures tmp == Some(Copied(Some(text), key, value))
      ensures replaced <==> Present(LinesOf(Some(text)), key)
      ensures conf == old(conf) && Only(old(seen), seen, conf)
    {
      replaced := false;
      var rest := text;
      ghost var done: seq<string> := [];
      while rest != []
        invariant done + Lines(rest) == Lines(text)
        invariant tmp == Some(Joined(Rewritten(done, key, value)))
        invariant replaced <==> Present(done, key)
        invariant conf == old(conf) && Only(old(seen), seen, conf)
        decreases |rest|
      {
        var line, more := Fgets(rest, ROOM);
        Regroup(done, line, Lines(more));
        RewrittenSnoc(done, line, key, value);
        if Matches(line, key) {
          Append(Entry(key, value));
          replaced := true;
        } else {
          Append(line);
        }
        done := done + [line];
        rest := more;
      }
      assert done + Lines(rest) == done;
    }

    // Everything up to the rename
    method WriteTemporary(key: string, value: string)
      modifies this
      ensures tmp == Some(Set(conf, key, value))
      ensures conf == old(conf) && Only(old(seen), seen, conf)
    {
      Create();
      var replaced := false;
      if conf.Some? {
        replaced := CopyLines(conf.value, key, value);
      }
      SetIsCopied(conf, key, value);
      if !replaced {
        Append(Entry(key, value));
      }
    }

    /**
     Whenever the power fails on the way, the named file is wholly the old one or wholly the new
     one, and the new one is the old one with the key's lines rewritten.
     */
    method ConfigSet(key: string, value: string, opens: bool) returns (rc: int)
      modifies this
      ensures rc == if opens then 0 else -1
      ensures conf == if opens then Some(Set(old(conf), key, value)) else old(conf)
      ensures if opens then OldThenNew(old(seen), seen, old(conf), conf) else seen == old(seen)
    {
      if !opens {
        return -1;
      }
      WriteTemporary(key, value);
      ghost var before := seen;
      Rename();
      assert seen[..|seen| - 1] == before;
      rc := 0;
    }
  }

  lemma Regroup(done: seq<string>, line: string, lines: seq<string>)
    ensures done + ([line] + lines) == done + [line] + lines
  {
  }

  lemma FindFirst(line: string, lines: seq<string>, key: string)
    ensures Find([line] + lines, key) == if Matches(line, key) then Some(StripEnd(line[|key| + 1..])) else Find(lines, key)
  {
    assert ([line] + lines)[1..] == lines;
  }

  lemma {:induction false} RewrittenAdds(lines: seq<string>, line: string, key: string, value: string)
    ensures Rewritten(lines + [line], key, value) ==
              Rewritten(lines, key, value) + [if Matches(line, key) then Entry(key, value) else line]
    decreases |lines|
  {
    if lines == [] {
      assert (lines + [line])[1..] == [];
    } else {
      assert (lines + [line])[1..] == lines[1..] + [line];
      RewrittenAdds(lines[1..], line, key, value);
    }
  }

  lemma RewrittenSnoc(lines: seq<string>, line: string, key: string, value: string)
    ensures Joined(Rewritten(lines + [line], key, value)) ==
              Joined(Rewritten(lines, key, value)) + if Matches(line, key) then Entry(key, value) else line
    ensures Present(lines + [line], key) <==> Present(lines, key) || Matches(line, key)
  {
    var new_ := if Matches(line, key) then Entry(key, value) else line;
    RewrittenAdds(lines, line, key, value);
    JoinedAppend(Rewritten(lines, key, value), [new_]);
    JoinedOne(new_);
    var all := lines + [line];
    assert all[|lines|] == line && forall i :: 0 <= i < |lines| ==> all[i] == lines[i];
  }
}
