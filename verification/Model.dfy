/** The canonical data types shared by the components, with the fields the model uses. */
module Model {

  datatype IOC = IOC(typ: string, value: string, description: string, source: string, tags: seq<string>)

  datatype AffectedProduct = AffectedProduct(vendor: string, product: string, versionStart: string, versionEnd: string)

  /** `cvss` is exact and `timestamp` is in nanoseconds. */
  datatype ThreatEvent = ThreatEvent(
    title: string, cves: seq<string>, cvss: real, tags: seq<string>, timestamp: int,
    affectedProducts: seq<AffectedProduct>, threatActors: seq<string>, iocs: seq<IOC>, sourceConfidence: string)

  datatype App = App(
    name: string, version: string, vendor: string, criticality: string, internetFacing: bool,
    dataSensitivity: string, lastVerified: string)

  datatype Match = Match(
    matcher: string, cve: string, appName: string, appVersion: string, versionAffected: bool,
    matchConfidence: string, kevMatch: bool, details: string, suppressed: bool, suppressReason: string)
}
