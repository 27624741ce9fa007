/** What the TypeScript inventory code reads off a path: manifest sections and criticality. */
module InventoryPaths {
  datatype Section = Files | PackageFiles | ConfigFiles

  /** What the program reads off a path. Two paths with the same key are the same path. */
  datatype PathFacts<!P> = PathFacts(
    hasKey: P -> bool, sourceSuffix: P -> bool, packageJson: P -> bool,
    configSuffix: P -> bool, configRoot: P -> bool, keyBytes: P -> nat)
  {
    function Sections(p: P, forceConfig: bool): set<Section> {
      (if sourceSuffix(p) then {Files} else {}) +
      (if packageJson(p) then {PackageFiles} else {}) +
      (if forceConfig || configSuffix(p) || configRoot(p) then {ConfigFiles} else {})
    }

    predicate Critical(p: P, forceConfig: bool) {
      forceConfig || configRoot(p) || packageJson(p)
    }

    function PathBytes(p: P): nat {
      keyBytes(p) + 1
    }

    predicate Relevant(p: P, forceConfig: bool) {
      hasKey(p) && Sections(p, forceConfig) != {}
    }

    predicate PureSource(p: P, forceConfig: bool) {
      Sections(p, forceConfig) == {Files}
    }
  }
}
