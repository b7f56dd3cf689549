/**
  * The first-run gate of the web application (expenserule/main.py,
  * `first_run_gate`): until an API key is configured, every request outside
  * the setup page and the static assets is redirected to the setup page.
  * Whether the key exists (`is_first_run` is its negation) is a parameter.
  */
module App {
  import opened Text

  const SETUP_PATH := "/setup"
  const STATIC_PATH := "/static"

  /** What the gate does with a request: hand it on, or answer with a redirect. */
  datatype GateDecision = PassThrough | Redirect(url: string)

  /** `first_run_gate` on a request for `path`. */
  function FirstRunGate(path: string, keyExists: bool): (d: GateDecision)
    ensures d.Redirect? ==> d.url == SETUP_PATH
    ensures d.Redirect? <==>
      !keyExists && path != SETUP_PATH && !StartsWith(path, STATIC_PATH)
  {
    var firstRun := !keyExists;
    if firstRun && path != SETUP_PATH && path != STATIC_PATH && !StartsWith(path, STATIC_PATH) then
      Redirect(SETUP_PATH)
    else
      PassThrough
  }

  /** Once a key is configured the gate lets every request through. */
  lemma ConfiguredPassesAll(path: string)
    ensures FirstRunGate(path, true) == PassThrough
  {
  }

  /**
    * Before a key is configured, paths that merely begin with "/setup"
    * are redirected too: only the setup page itself is exempt.
    */
  lemma SetupPrefixRedirected(suffix: string)
    requires suffix != ""
    ensures FirstRunGate(SETUP_PATH + suffix, false) == Redirect(SETUP_PATH)
  {
    assert |SETUP_PATH + suffix| != |SETUP_PATH|;
    assert (SETUP_PATH + suffix)[2] != STATIC_PATH[2];
  }

  /** Everything under "/static" stays reachable, so the setup page can load its styles. */
  lemma StaticAlwaysServed(suffix: string, keyExists: bool)
    ensures FirstRunGate(STATIC_PATH + suffix, keyExists) == PassThrough
  {
    assert STATIC_PATH <= STATIC_PATH + suffix;
  }
}
