/**
 `patchEnv` of scripts/derive-clob-creds.ts: the three writes of one run, and what
 the loader reads from the file afterwards.
 */
module EnvPatch {
  import opened EnvFile
  import opened EnvReplace
  import opened EnvRoundTrip

  const API_KEY := "POLYMARKET_CLOB_API_KEY"
  const SECRET := "POLYMARKET_CLOB_SECRET"
  const PASSPHRASE := "POLYMARKET_CLOB_PASSPHRASE"

  function Patched(body: string, apiKey: string, secret: string, passphrase: string): string {
    SetOrAppend(SetOrAppend(SetOrAppend(body, API_KEY, apiKey), SECRET, secret), PASSPHRASE, passphrase)
  }

  /** What the three writes need of the file before the run. */
  predicate AllFit(body: string, apiKey: string, secret: string, passphrase: string) {
    && PlainValue(apiKey) && PlainValue(secret) && PlainValue(passphrase)
    && Fits(body, API_KEY, apiKey) && Fits(body, SECRET, secret) && Fits(body, PASSPHRASE, passphrase)
  }

  lemma KeysPlain()
    ensures PlainKey(API_KEY) && PlainKey(SECRET) && PlainKey(PASSPHRASE)
    ensures API_KEY != SECRET && SECRET != PASSPHRASE && API_KEY != PASSPHRASE
  {
    assert API_KEY[16] != SECRET[16] && SECRET[16] != PASSPHRASE[16] && API_KEY[16] != PASSPHRASE[16];
  }

  /** A write of one key changes nothing about the write of another. */
  lemma Undisturbed(body: string, key: string, val: string, other: string, text: string)
    requires PlainKey(key) && PlainValue(val) && Fits(body, key, val)
    requires PlainKey(other) && other != key && Fits(body, other, text)
    ensures var after := SetOrAppend(body, key, val);
            && Fits(after, other, text) && ShadowOf(after, other) == ShadowOf(body, other)
            && Loaded(after, other, text) == Loaded(body, other, text)
            && (ReadsBack(after, other, text) <==> ReadsBack(body, other, text))
  {
    GuardsKept(body, key, val, other);
    OthersKept(body, key, val, other);
  }

  lemma SecondAndThird(body: string, apiKey: string, secret: string, passphrase: string)
    requires AllFit(body, apiKey, secret, passphrase)
    ensures var b1 := SetOrAppend(body, API_KEY, apiKey);
            && Fits(b1, SECRET, secret) && Loaded(b1, SECRET, secret) == Loaded(body, SECRET, secret)
            && Fits(SetOrAppend(b1, SECRET, secret), PASSPHRASE, passphrase)
            && Loaded(SetOrAppend(b1, SECRET, secret), PASSPHRASE, passphrase) == Loaded(body, PASSPHRASE, passphrase)
  {
    KeysPlain();
    Undisturbed(body, API_KEY, apiKey, SECRET, secret);
    Undisturbed(body, API_KEY, apiKey, PASSPHRASE, passphrase);
    Undisturbed(SetOrAppend(body, API_KEY, apiKey), SECRET, secret, PASSPHRASE, passphrase);
  }

  /** The loader reads each value under the condition of its own write, on the file before the run. */
  lemma PatchRead(body: string, apiKey: string, secret: string, passphrase: string)
    requires AllFit(body, apiKey, secret, passphrase)
    ensures var patched := Patched(body, apiKey, secret, passphrase);
            && Read(patched, API_KEY) == Loaded(body, API_KEY, apiKey)
            && Read(patched, SECRET) == Loaded(body, SECRET, secret)
            && Read(patched, PASSPHRASE) == Loaded(body, PASSPHRASE, passphrase)
  {
    KeysPlain();
    SecondAndThird(body, apiKey, secret, passphrase);
    var b1 := SetOrAppend(body, API_KEY, apiKey);
    var b2 := SetOrAppend(b1, SECRET, secret);
    ReadWritten(body, API_KEY, apiKey);
    ReadWritten(b1, SECRET, secret);
    ReadWritten(b2, PASSPHRASE, passphrase);
    OthersKept(b1, SECRET, secret, API_KEY);
    OthersKept(b2, PASSPHRASE, passphrase, API_KEY);
    OthersKept(b2, PASSPHRASE, passphrase, SECRET);
  }

  lemma PatchOthers(body: string, apiKey: string, secret: string, passphrase: string, other: string)
    requires AllFit(body, apiKey, secret, passphrase)
    requires PlainKey(other) && other != API_KEY && other != SECRET && other != PASSPHRASE
    ensures Read(Patched(body, apiKey, secret, passphrase), other) == Read(body, other)
  {
    KeysPlain();
    SecondAndThird(body, apiKey, secret, passphrase);
    var b1 := SetOrAppend(body, API_KEY, apiKey);
    OthersKept(body, API_KEY, apiKey, other);
    OthersKept(b1, SECRET, secret, other);
    OthersKept(SetOrAppend(b1, SECRET, secret), PASSPHRASE, passphrase, other);
  }

  lemma LoadedIs(body: string, key: string, val: string)
    requires PlainValue(val) && Fits(body, key, val)
    ensures Loaded(body, key, val) == val <==> ReadsBack(body, key, val)
  {
    if Replaces(body, key) { HalvedExactly(val); }
  }

  lemma PatchEffect(body: string, apiKey: string, secret: string, passphrase: string)
    ensures AllFit(body, apiKey, secret, passphrase) ==>
              var patched := Patched(body, apiKey, secret, passphrase);
              && (Read(patched, API_KEY) == apiKey <==> ReadsBack(body, API_KEY, apiKey))
              && (Read(patched, SECRET) == secret <==> ReadsBack(body, SECRET, secret))
              && (Read(patched, PASSPHRASE) == passphrase <==> ReadsBack(body, PASSPHRASE, passphrase))
  {
    if AllFit(body, apiKey, secret, passphrase) {
      PatchRead(body, apiKey, secret, passphrase);
      LoadedIs(body, API_KEY, apiKey);
      LoadedIs(body, SECRET, secret);
      LoadedIs(body, PASSPHRASE, passphrase);
    }
  }

  /** The three writes of patchEnv: each is read back under its own condition, and other keys are untouched. */
  lemma PatchRoundTrip(body: string, apiKey: string, secret: string, passphrase: string, other: string)
    requires AllFit(body, apiKey, secret, passphrase)
    requires PlainKey(other) && other != API_KEY && other != SECRET && other != PASSPHRASE
    ensures var patched := Patched(body, apiKey, secret, passphrase);
            && (Read(patched, API_KEY) == apiKey <==> ReadsBack(body, API_KEY, apiKey))
            && (Read(patched, SECRET) == secret <==> ReadsBack(body, SECRET, secret))
            && (Read(patched, PASSPHRASE) == passphrase <==> ReadsBack(body, PASSPHRASE, passphrase))
            && Read(patched, other) == Read(body, other)
  {
    PatchEffect(body, apiKey, secret, passphrase);
    PatchOthers(body, apiKey, secret, passphrase, other);
  }

  /** The file object: `PatchEnv` reads it, rewrites the body three times and writes it back. */
  class File {
    var content: string

    constructor (content: string)
      ensures this.content == content
    {
      this.content := content;
    }

    method PatchEnv(apiKey: string, secret: string, passphrase: string)
      modifies this
      ensures content == Patched(old(content), apiKey, secret, passphrase)
      ensures AllFit(old(content), apiKey, secret, passphrase) ==>
                && (Read(content, API_KEY) == apiKey <==> ReadsBack(old(content), API_KEY, apiKey))
                && (Read(content, SECRET) == secret <==> ReadsBack(old(content), SECRET, secret))
                && (Read(content, PASSPHRASE) == passphrase <==> ReadsBack(old(content), PASSPHRASE, passphrase))
    {
      var body := content;
      body := SetOrAppend(body, API_KEY, apiKey);
      body := SetOrAppend(body, SECRET, secret);
      body := SetOrAppend(body, PASSPHRASE, passphrase);
      PatchEffect(content, apiKey, secret, passphrase);
      content := body;
    }
  }
}
