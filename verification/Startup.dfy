/**
 * The startup ladder for key material, run by any number of processes against
 * one config directory with no lock between them.
 *
 * What other processes do between two operations of this one is an arbitrary
 * function constrained by Rely, the relation every operation below is proved to
 * stay inside; a crash or an I/O error is an operation that fails, leaving what
 * it had written so far.
 */
module Startup {
  import opened Wrappers
  import opened Base64
  import opened Text
  import opened KeyFiles

  /** keys/secret.key, kek.salt and the legacy keys/kek.salt. */
  datatype Files = Files(key: Option<string>, salt: Option<string>, legacy: Option<string>)

  /** A file another process may have created or gone on writing: never removed, replaced or shortened. */
  ghost predicate Grows(a: Option<string>, b: Option<string>) {
    a == b || (b.Some? && (a.Some? ==> a.value <= b.value) && exists v: Octets :: Writing(b.value, v))
  }

  /** A prefix of what an O_EXCL writer of the 32-byte value v leaves. */
  ghost predicate Writing(c: string, v: Octets) {
    |v| == 32 && c <= Content(v)
  }

  ghost predicate Rely(f: Files, f': Files) {
    Grows(f.key, f'.key) && Grows(f.salt, f'.salt) && f'.legacy == f.legacy
  }

  lemma RelyTransitive(f: Files, g: Files, h: Files)
    requires Rely(f, g) && Rely(g, h)
    ensures Rely(f, h)
  {
  }

  /** The key a reader of the key file gets, if any; likewise the salt. */
  function KeyIn(f: Files): Option<Octets> {
    match f.key
    case None => None
    case Some(c) => if Validated(c).Ok? then Some(Validated(c).value) else None
  }

  function SaltIn(f: Files): Option<Octets> {
    match f.salt
    case None => None
    case Some(c) => SaltOf(c)
  }

  lemma PrefixIs(c: string, v: Octets)
    requires Writing(c, v)
    ensures c == Content(v)[..|c|] && |c| <= |Content(v)|
  {
  }

  /** Once a file decodes, it decodes to the same value forever. */
  lemma DecodedStays(f: Files, f': Files)
    requires Rely(f, f')
    ensures KeyIn(f).Some? ==> KeyIn(f') == KeyIn(f)
    ensures SaltIn(f).Some? ==> SaltIn(f') == SaltIn(f)
  {
    if KeyIn(f).Some? && f.key != f'.key {
      var v: Octets :| Writing(f'.key.value, v);
      PrefixIs(f.key.value, v);
      PrefixIs(f'.key.value, v);
      PartialMasterKey(v, |f.key.value|);
      PartialMasterKey(v, |f'.key.value|);
    }
    if SaltIn(f).Some? && f.salt != f'.salt {
      var v: Octets :| Writing(f'.salt.value, v);
      PrefixIs(f.salt.value, v);
      PrefixIs(f'.salt.value, v);
      PartialSalt(v, |f.salt.value|);
      PartialSalt(v, |f'.salt.value|);
    }
  }

  ghost predicate Behaviour(trace: seq<Files>) {
    forall i :: 0 <= i < |trace| - 1 ==> Rely(trace[i], trace[i + 1])
  }

  lemma {:induction false} AlongBehaviour(trace: seq<Files>, i: nat, j: nat)
    requires Behaviour(trace) && i <= j < |trace|
    ensures Rely(trace[i], trace[j])
  {
    if i < j {
      AlongBehaviour(trace, i, j - 1);
      RelyTransitive(trace[i], trace[j - 1], trace[j]);
    }
  }

  /**
   * Convergence: over any interleaving and crash of any number of processes, two
   * processes that got a key and a salt at any two moments got the same ones; no
   * file that existed was removed or replaced, and the legacy salt never changed.
   */
  lemma Convergence(trace: seq<Files>, i: nat, j: nat)
    requires Behaviour(trace) && i < |trace| && j < |trace|
    ensures KeyIn(trace[i]).Some? && KeyIn(trace[j]).Some? ==> KeyIn(trace[i]) == KeyIn(trace[j])
    ensures SaltIn(trace[i]).Some? && SaltIn(trace[j]).Some? ==> SaltIn(trace[i]) == SaltIn(trace[j])
    ensures trace[i].legacy == trace[j].legacy
    ensures i <= j && trace[i].key.Some? ==> trace[j].key.Some? && trace[i].key.value <= trace[j].key.value
    ensures i <= j && trace[i].salt.Some? ==> trace[j].salt.Some? && trace[i].salt.value <= trace[j].salt.value
  {
    if i <= j {
      AlongBehaviour(trace, i, j);
      DecodedStays(trace[i], trace[j]);
    } else {
      AlongBehaviour(trace, j, i);
      DecodedStays(trace[j], trace[i]);
    }
  }

  // ---- one process ----

  datatype Error =
    | BothChannels | EmptyKey | KeyAbsent | SaltAbsent | AlreadyExists | Unreadable | IOFailure
    | MissingKeyForExistingData | MissingSaltForExistingData

  /** USARR_SECRET_KEY, if it is set, and what the file USARR_SECRET_KEY_FILE names holds, if that is set and the file there. */
  datatype Channels = Channels(key: Option<string>, file: Option<Option<string>>)

  function KeyFrom(raw: string): Result<Octets, Error> {
    if Validated(raw).Ok? then Ok(Validated(raw).value) else Err(Unreadable)
  }

  /** What the environment decides: nothing, if neither channel is set. */
  function Supplied(env: Channels): Option<Result<Octets, Error>> {
    match (env.key, env.file)
    case (None, None) => None
    case (Some(_), Some(_)) => Some(Err(BothChannels))
    case (Some(raw), None) => Some(if TrimSpace(raw) == "" then Err(EmptyKey) else KeyFrom(raw))
    case (None, Some(content)) => Some(if content.Some? then KeyFrom(content.value) else Err(Unreadable))
  }

  /** The channels are exclusive and empty is not unset: an environment that sets anything at all is never taken for a first run. */
  lemma SuppliedDecides(env: Channels)
    ensures Supplied(env) == None <==> env.key == None && env.file == None
    ensures Supplied(env) != Some(Err(KeyAbsent))
    ensures env.key == Some("") ==> Supplied(env) in {Some(Err(EmptyKey)), Some(Err(BothChannels))}
    ensures Supplied(env).Some? && Supplied(env).value.Ok? ==> |Supplied(env).value.value| == MASTER_KEY_LEN && NonZero(Supplied(env).value.value)
  {
  }

  datatype Target = Nothing | KeyFile | SaltFile

  /** What a process may do to the files, given which one it created and is still writing. */
  ghost predicate OwnStep(f: Files, f': Files, writing: Target) {
    && Rely(f, f')
    && (f'.key != f.key ==> f.key.None? || writing == KeyFile)
    && (f'.salt != f.salt ==> f.salt.None? || writing == SaltFile)
  }

  /** What the others may do meanwhile: an O_EXCL file has one writer. */
  ghost predicate OthersStep(f: Files, f': Files, writing: Target) {
    && Rely(f, f')
    && (writing == KeyFile ==> f'.key == f.key)
    && (writing == SaltFile ==> f'.salt == f.salt)
  }

  /**
   * The assumption about the others is what each process is proved to keep: any
   * number of their own steps, none of them writing the file this one is
   * writing, is a step the others may take.
   */
  lemma {:induction false} OwnStepsAreOthersSteps(trace: seq<Files>, targets: seq<Target>, mine: Target)
    requires |targets| + 1 == |trace|
    requires forall i :: 0 <= i < |targets| ==> OwnStep(trace[i], trace[i + 1], targets[i])
    requires forall i :: 0 <= i < |targets| ==> targets[i] == Nothing || targets[i] != mine
    requires mine == KeyFile ==> trace[0].key.Some?
    requires mine == SaltFile ==> trace[0].salt.Some?
    ensures OthersStep(trace[0], trace[|trace| - 1], mine)
  {
    if targets != [] {
      var n := |targets|;
      OwnStepsAreOthersSteps(trace[..n], targets[..n - 1], mine);
      RelyTransitive(trace[0], trace[n - 1], trace[n]);
    }
  }

  class ConfigDir {
    var files: Files
    var tick: nat
    var writing: Target
    /** Every state of the directory so far. */
    ghost var trace: seq<Files>
    /** Whether this process has created key material over what it read. */
    ghost var generated: bool

    const env: Channels
    const others: (nat, Files, Target) -> Files
    const fails: nat -> bool
    const noLinks: nat -> bool
    const encryptedRows: nat -> nat

    ghost predicate Valid()
      reads this
    {
      && (forall n, f, w :: OthersStep(f, others(n, f, w), w))
      && Behaviour(trace) && trace != [] && trace[|trace| - 1] == files
    }

    constructor (files: Files, env: Channels, others: (nat, Files, Target) -> Files, fails: nat -> bool, noLinks: nat -> bool,
                 encryptedRows: nat -> nat)
      requires forall n, f, w :: OthersStep(f, others(n, f, w), w)
      ensures Valid() && this.files == files && this.env == env && trace == [files] && writing == Nothing && !generated
    {
      this.env := env;
      this.files, this.others, this.fails, this.noLinks, this.encryptedRows := files, others, fails, noLinks, encryptedRows;
      tick, writing, trace, generated := 0, Nothing, [files], false;
    }

    /** Nothing fails, whatever the other processes do. */
    ghost predicate Sturdy() {
      forall n :: !fails(n)
    }

    /** No other process is about, and nothing fails. */
    ghost predicate Smooth() {
      Sturdy() && forall n, f, w :: others(n, f, w) == f
    }

    /** The legacy salt, if there is one, can be read. */
    predicate GoodLegacy()
      reads this
    {
      files.legacy == None || SaltOf(files.legacy.value).Some?
    }

    /** The files evolved only by steps every process is allowed. */
    twostate predicate Evolved()
      reads this
    {
      Valid() && old(Valid()) && old(trace) <= trace
    }

    lemma StillDecodes(before: seq<Files>)
      requires Valid() && before != [] && before <= trace
      ensures var f := before[|before| - 1];
              && (KeyIn(f).Some? ==> KeyIn(files) == KeyIn(f))
              && (SaltIn(f).Some? ==> SaltIn(files) == SaltIn(f))
    {
      AlongBehaviour(trace, |before| - 1, |trace| - 1);
      DecodedStays(before[|before| - 1], files);
    }

    /** The other processes run; then this operation takes place, or fails. */
    method Await() returns (ok: bool)
      requires Valid()
      modifies this`files, this`tick, this`trace
      ensures Evolved()
      ensures OthersStep(old(files), files, writing)
      ensures Sturdy() ==> ok
      ensures Smooth() ==> files == old(files)
    {
      assert OthersStep(files, others(tick, files, writing), writing);
      files := others(tick, files, writing);
      trace := trace + [files];
      ok := !fails(tick);
      tick := tick + 1;
    }

    method Effect(f: Files)
      requires Valid() && OwnStep(files, f, writing)
      modifies this`files, this`trace
      ensures Evolved() && files == f
    {
      files := f;
      trace := trace + [f];
    }

    function At(t: Target): Option<string>
      reads this
    {
      match t case KeyFile => files.key case _ => files.salt
    }

    function Put(f: Files, t: Target, c: string): Files {
      if t == KeyFile then f.(key := Some(c)) else f.(salt := Some(c))
    }

    /** One write to the file this process created, or its creation. */
    method Append(t: Target, ghost v: Octets, c: string)
      requires Valid() && t != Nothing && Writing(c, v)
      requires match At(t) case None => true case Some(before) => writing == t && before <= c
      modifies this`files, this`trace
      ensures Evolved() && At(t) == Some(c) && files == Put(old(files), t, c)
    {
      Effect(Put(files, t, c));
    }

    /** The content of a file this process has just created, one write at a time. */
    method WriteContent(t: Target, ghost v: Octets, content: string) returns (r: Result<(), Error>)
      requires Valid() && t != Nothing && writing == t && At(t) == Some("")
      requires |v| == 32 && content == Content(v)
      modifies this`files, this`tick, this`trace
      ensures Evolved()
      ensures r.Ok? ==> At(t) == Some(content)
      ensures r.Err? ==> r.error == IOFailure
      ensures Sturdy() ==> r.Ok?
      ensures Smooth() ==> files == Put(old(files), t, content)
    {
      for i := 0 to |content|
        invariant Evolved()
        invariant At(t) == Some(content[..i])
        invariant Smooth() ==> files == Put(old(files), t, content[..i])
      {
        var ok := Await();
        if !ok {
          return Err(IOFailure);
        }
        Append(t, v, content[..i + 1]);
      }
      assert content[..|content|] == content;
      r := Ok(());
    }

    /** os.OpenFile with O_EXCL, then the content, one write at a time. */
    method WriteSecretFile(t: Target, ghost v: Octets, content: string) returns (r: Result<(), Error>)
      requires Valid() && writing == Nothing && t != Nothing
      requires |v| == 32 && content == Content(v)
      modifies this`files, this`tick, this`trace, this`writing
      ensures Evolved() && writing == Nothing
      ensures r.Ok? ==> At(t) == Some(content)
      ensures r.Err? ==> r.error in {AlreadyExists, IOFailure}
      ensures Sturdy() && r.Err? ==> r == Err(AlreadyExists) && At(t).Some?
      ensures Smooth() && old(At(t)) == None ==> r.Ok? && files == Put(old(files), t, content)
    {
      var ok := Await();
      if !ok {
        return Err(IOFailure);
      }
      if At(t).Some? {
        return Err(AlreadyExists);
      }
      Append(t, v, "");
      writing := t;
      r := WriteContent(t, v, content);
      writing := Nothing;
    }

    /** readKeyFile on secret.key, once it has been seen to exist. */
    method ReadKeyFile() returns (r: Result<Octets, Error>)
      requires Valid() && writing == Nothing
      modifies this`files, this`tick, this`trace
      ensures Evolved()
      ensures r.Ok? ==> KeyIn(files) == Some(r.value)
      ensures r == Err(KeyAbsent) ==> files.key == None
      ensures Sturdy() ==> r == if files.key == None then Err(KeyAbsent) else KeyFrom(files.key.value)
      ensures Smooth() ==> files == old(files)
    {
      var ok := Await();
      if !ok {
        return Err(IOFailure);
      }
      if files.key == None {
        return Err(KeyAbsent);
      }
      ok := Await();
      if !ok {
        return Err(IOFailure);
      }
      var key := ValidateMasterKey(files.key.value);
      r := if key.Ok? then Ok(key.value) else Err(Unreadable);
    }

    /** ResolveMasterKey: what the environment decides, and only failing that the key file. */
    method ResolveMasterKey() returns (r: Result<Octets, Error>)
      requires Valid() && writing == Nothing
      modifies this`files, this`tick, this`trace
      ensures Evolved()
      ensures Supplied(env).Some? ==> r == Supplied(env).value || (r == Err(IOFailure) && env.file.Some?)
      ensures Supplied(env) == None && r.Ok? ==> KeyIn(files) == Some(r.value)
      ensures r == Err(KeyAbsent) ==> Supplied(env) == None && files.key == None
      ensures Smooth() ==> files == old(files)
      ensures Sturdy() && Supplied(env) == None ==> r == if files.key == None then Err(KeyAbsent) else KeyFrom(files.key.value)
      ensures Sturdy() && Supplied(env).Some? ==> r == Supplied(env).value
    {
      if env.key.Some? && env.file.Some? {
        return Err(BothChannels);
      }
      if env.key.Some? {
        if TrimSpace(env.key.value) == "" {
          return Err(EmptyKey);
        }
        var key := ValidateMasterKey(env.key.value);
        return if key.Ok? then Ok(key.value) else Err(Unreadable);
      }
      if env.file.Some? {
        var ok := Await();
        if !ok {
          return Err(IOFailure);
        }
        if env.file.value == None {
          return Err(Unreadable);
        }
        var key := ValidateMasterKey(env.file.value.value);
        return if key.Ok? then Ok(key.value) else Err(Unreadable);
      }
      r := ReadKeyFile();
    }

    /** GenerateMasterKey: never over an existing file. The key in hand is the one in the file, unless it is all zero. */
    method GenerateMasterKey(random: Octets) returns (r: Result<Octets, Error>)
      requires Valid() && writing == Nothing && |random| == MASTER_KEY_LEN
      modifies this`files, this`tick, this`trace, this`writing, this`generated
      ensures Evolved() && writing == Nothing && generated
      ensures r.Ok? ==> r.value == random && files.key == Some(Content(random))
      ensures r.Ok? ==> KeyIn(files) == if NonZero(random) then Some(random) else None
      ensures r.Err? ==> r.error in {AlreadyExists, IOFailure}
      ensures Smooth() && old(files.key) == None ==> r.Ok? && files == Put(old(files), KeyFile, Content(random))
    {
      generated := true;
      var w := WriteSecretFile(KeyFile, random, Content(random));
      if w.Err? {
        return Err(w.error);
      }
      CompleteContent(random);
      r := Ok(random);
    }

    /** readKEKSalt on the current path. */
    method ReadSalt() returns (r: Result<Octets, Error>)
      requires Valid() && writing == Nothing
      modifies this`files, this`tick, this`trace
      ensures Evolved()
      ensures r.Ok? ==> SaltIn(files) == Some(r.value) && |r.value| == KEK_SALT_LEN
      ensures r == Err(SaltAbsent) <==> r.Err? && files.salt == None && r.error != IOFailure
      ensures Smooth() ==> files == old(files)
      ensures Sturdy() && SaltIn(files).Some? ==> r == Ok(SaltIn(files).value)
      ensures Sturdy() && files.salt == None ==> r == Err(SaltAbsent)
    {
      var ok := Await();
      if !ok {
        return Err(IOFailure);
      }
      if files.salt == None {
        return Err(SaltAbsent);
      }
      r := match SaltOf(files.salt.value) case Some(s) => Ok(s) case None => Err(Unreadable);
    }

    /** writeSaltFile: a complete file linked into place, refused if one is there; O_EXCL where links are unavailable. */
    method WriteSaltFile(salt: Octets) returns (r: Result<(), Error>)
      requires Valid() && writing == Nothing && |salt| == KEK_SALT_LEN
      modifies this`files, this`tick, this`trace, this`writing
      ensures Evolved() && writing == Nothing
      ensures r.Ok? ==> SaltIn(files) == Some(salt)
      ensures r.Err? ==> r.error in {AlreadyExists, IOFailure}
      ensures Sturdy() && r.Err? ==> r == Err(AlreadyExists) && files.salt.Some?
      ensures Smooth() && old(files.salt) == None ==> r.Ok? && files == Put(old(files), SaltFile, Content(salt))
    {
      CompleteContent(salt);
      if noLinks(tick) {
        r := WriteSecretFile(SaltFile, salt, Content(salt));
        return;
      }
      var ok := Await();
      if !ok {
        return Err(IOFailure);
      }
      if files.salt.Some? {
        return Err(AlreadyExists);
      }
      assert Writing(Content(salt), salt);
      Effect(files.(salt := Some(Content(salt))));
      r := Ok(());
    }

    /** ResolveKEKSalt: read, or copy the legacy salt forward and adopt whatever won. */
    method ResolveKEKSalt() returns (r: Result<Octets, Error>)
      requires Valid() && writing == Nothing
      modifies this`files, this`tick, this`trace, this`writing
      ensures Evolved() && writing == Nothing
      ensures r.Ok? ==> SaltIn(files) == Some(r.value)
      ensures r == Err(SaltAbsent) ==> files.legacy == None
      ensures Sturdy() && GoodLegacy() && SaltIn(files).Some? ==> r.Ok? || r == Err(SaltAbsent)
      ensures Smooth() && SaltIn(old(files)).Some? ==> files == old(files) && r == Ok(SaltIn(files).value)
      ensures Smooth() && old(files.salt) == None && old(files.legacy) == None ==> files == old(files) && r == Err(SaltAbsent)
      ensures Smooth() && old(files.salt) == None && old(files.legacy).Some? && SaltOf(old(files.legacy).value).Some? ==>
                r == Ok(SaltOf(old(files.legacy).value).value) && files == Put(old(files), SaltFile, Content(r.value))
    {
      r := ReadSalt();
      if r.Ok? || r.error != SaltAbsent {
        return;
      }
      var ok := Await();
      if !ok {
        return Err(IOFailure);
      }
      if files.legacy == None {
        return Err(SaltAbsent);
      }
      var legacy := SaltOf(files.legacy.value);
      if legacy == None {
        return Err(Unreadable);
      }
      var w := WriteSaltFile(legacy.value);
      if w.Ok? {
        return Ok(legacy.value);
      }
      if w.error == AlreadyExists {
        r := ReadSalt();
        if r.Err? && r.error == SaltAbsent {
          r := Err(Unreadable);
        }
        return;
      }
      r := Err(IOFailure);
    }

    /** GenerateKEKSalt: an existing salt wins, and the answer is always read back from the file. */
    method GenerateKEKSalt(random: Octets) returns (r: Result<Octets, Error>)
      requires Valid() && writing == Nothing && |random| == KEK_SALT_LEN
      modifies this`files, this`tick, this`trace, this`writing, this`generated
      ensures Evolved() && writing == Nothing && generated
      ensures r.Ok? ==> SaltIn(files) == Some(r.value)
      ensures Sturdy() && GoodLegacy() && SaltIn(files).Some? ==> r.Ok?
      ensures Smooth() && old(files.salt) == None && old(files.legacy) == None ==>
                r == Ok(random) && files == Put(old(files), SaltFile, Content(random))
    {
      generated := true;
      r := ResolveKEKSalt();
      if r.Ok? || r.error != SaltAbsent {
        return;
      }
      var w := WriteSaltFile(random);
      if w.Err? && w.error != AlreadyExists {
        return Err(w.error);
      }
      r := ReadSalt();
    }

    /** The salt half of the ladder. */
    method LadderSalt(randomSalt: Octets) returns (r: Result<Octets, Error>)
      requires Valid() && writing == Nothing && |randomSalt| == KEK_SALT_LEN
      modifies this`files, this`tick, this`trace, this`writing, this`generated
      ensures Evolved() && writing == Nothing
      ensures r.Ok? ==> SaltIn(files) == Some(r.value)
      ensures (forall n :: encryptedRows(n) > 0) ==> generated == old(generated)
      ensures Sturdy() && GoodLegacy() && SaltIn(files).Some? && (forall n :: encryptedRows(n) == 0) ==> r.Ok?
      ensures Smooth() && SaltIn(old(files)).Some? ==> files == old(files) && r == Ok(SaltIn(files).value)
      ensures Smooth() && (forall n :: encryptedRows(n) == 0) && old(files.salt) == None && old(files.legacy) == None ==>
                r == Ok(randomSalt) && files == Put(old(files), SaltFile, Content(randomSalt))
    {
      r := ResolveKEKSalt();
      if r == Err(SaltAbsent) {
        if encryptedRows(tick) > 0 {
          return Err(MissingSaltForExistingData);
        }
        r := GenerateKEKSalt(randomSalt);
      }
    }

    /** The key a process goes on with: the one supplied, or else what the key file decodes to, an all-zero fresh one apart. */
    ghost predicate Holding(key: Octets, randomKey: Octets)
      reads this
    {
      if Supplied(env).Some? then Supplied(env).value == Ok(key)
      else KeyIn(files) == Some(key) || (key == randomKey && !NonZero(randomKey))
    }

    /** The master-key half. */
    method LadderKey(randomKey: Octets) returns (r: Result<Octets, Error>)
      requires Valid() && writing == Nothing && |randomKey| == MASTER_KEY_LEN
      modifies this`files, this`tick, this`trace, this`writing, this`generated
      ensures Evolved() && writing == Nothing
      ensures r.Ok? ==> Holding(r.value, randomKey)
      ensures Supplied(env).Some? ==> generated == old(generated)
      ensures (forall n :: encryptedRows(n) > 0) ==> generated == old(generated)
      ensures Smooth() && Supplied(env) == None && KeyIn(old(files)).Some? ==> files == old(files) && r == Ok(KeyIn(files).value)
      ensures Smooth() && Supplied(env).Some? ==> files == old(files) && r == Supplied(env).value
      ensures Smooth() && Supplied(env) == None && old(files.key) == None && (forall n :: encryptedRows(n) == 0) ==>
                r == Ok(randomKey) && files == Put(old(files), KeyFile, Content(randomKey))
      ensures Smooth() && Supplied(env) == None && old(files.key) == None && (forall n :: encryptedRows(n) > 0) ==>
                files == old(files) && r == Err(MissingKeyForExistingData)
    {
      r := ResolveMasterKey();
      if r == Err(KeyAbsent) {
        if encryptedRows(tick) > 0 {
          return Err(MissingKeyForExistingData);
        }
        r := GenerateMasterKey(randomKey);
      }
    }

    /**
     * The ladder of buildApp. A process that gets past it holds the key supplied
     * to it, or exactly what the files decode to; on a database that always holds
     * ciphertext it never creates a key or a salt. Alone and with nothing failing,
     * an empty directory with no ciphertext gets the fresh key and salt, complete
     * files are read back untouched, and a lost key beside ciphertext is refused.
     */
    method Ladder(randomKey: Octets, randomSalt: Octets) returns (r: Result<(Octets, Octets), Error>)
      requires Valid() && writing == Nothing
      requires |randomKey| == MASTER_KEY_LEN && |randomSalt| == KEK_SALT_LEN
      modifies this`files, this`tick, this`trace, this`writing, this`generated
      ensures Evolved() && writing == Nothing
      ensures r.Ok? ==> SaltIn(files) == Some(r.value.1)
      ensures r.Ok? ==> Holding(r.value.0, randomKey)
      ensures (forall n :: encryptedRows(n) > 0) ==> generated == old(generated)
      ensures Smooth() && Supplied(env) == None && (forall n :: encryptedRows(n) == 0) && old(files) == Files(None, None, None) ==>
                r == Ok((randomKey, randomSalt)) && files == Files(Some(Content(randomKey)), Some(Content(randomSalt)), None)
      ensures Smooth() && Supplied(env) == None && KeyIn(old(files)).Some? && SaltIn(old(files)).Some? ==>
                r == Ok((KeyIn(old(files)).value, SaltIn(old(files)).value)) && files == old(files)
      ensures Smooth() && Supplied(env) == None && old(files.key) == None && (forall n :: encryptedRows(n) > 0) ==>
                r == Err(MissingKeyForExistingData) && files == old(files)
    {
      var key := LadderKey(randomKey);
      if key.Err? {
        return Err(key.error);
      }
      ghost var before := trace;
      assert before[|before| - 1] == files;
      var salt := LadderSalt(randomSalt);
      StillDecodes(before);
      if salt.Err? {
        return Err(salt.error);
      }
      r := Ok((key.value, salt.value));
    }
  }
}
