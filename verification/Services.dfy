/** Rio services: the value a reader of the API sees (`Revision`), the mutable object the
    controllers hold (`Service`), and the naming rules of pkg/services/service.go. */
module Services {
  import opened Prelude

  datatype RolloutConfig = RolloutConfig(increment: int, intervalSeconds: int, pause: bool)

  datatype Revision = Revision(
    namespace: string, name: string, uid: string,
    app: string, version: string, template: bool,
    weight: Option<int>, rollout: Option<RolloutConfig>,   // spec
    ready: bool, computed: Option<int>                     // status
  )

  // The in-memory object; spec and status are what commands and controllers update.
  class Service {
    const namespace: string
    const name: string
    const uid: string
    const app: string
    const version: string
    const template: bool
    var weight: Option<int>
    var rollout: Option<RolloutConfig>
    var ready: bool
    var computed: Option<int>

    constructor (r: Revision)
      ensures View() == r
    {
      namespace, name, uid, app, version, template :=
        r.namespace, r.name, r.uid, r.app, r.version, r.template;
      weight, rollout, ready, computed := r.weight, r.rollout, r.ready, r.computed;
    }

    function View(): Revision
      reads this
    {
      Revision(namespace, name, uid, app, version, template, weight, rollout, ready, computed)
    }
  }

  function Views(svcs: seq<Service>): (vs: seq<Revision>)
    reads svcs
    ensures |vs| == |svcs|
  {
    seq(|svcs|, i requires 0 <= i < |svcs| reads svcs => svcs[i].View())
  }

  // App and version, which default to the object's name and the start of its UID.
  function AppAndVersion(r: Revision): (v: (string, string))
    ensures v.0 == "" <==> r.app == "" && r.name == ""
    ensures v.1 == "" <==> r.version == "" && r.uid == ""
    ensures v.0 in {r.app, r.name} && (r.app != "" ==> v.0 == r.app)
    ensures v.1 != r.version ==> v.1 <= r.uid && |v.1| <= 8 && (|v.1| < 8 ==> v.1 == r.uid)
  {
    (if r.app == "" then r.name else r.app,
     if r.version != "" then r.version else if |r.uid| < 8 then r.uid else r.uid[..8])
  }

  function App(r: Revision): string { AppAndVersion(r).0 }

  function Version(r: Revision): string { AppAndVersion(r).1 }
}
