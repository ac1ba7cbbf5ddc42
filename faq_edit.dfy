/**
 * The FAQ edit component: turning the values of its form into the payload
 * submitted for a park, and following the key of the currently selected park.
 */
module FaqEdit {
  import opened JsValues

  /** The `park` object of a submission. */
  datatype ParkPayload = ParkPayload(
    name: JsValue,
    orcs: JsValue,
    bcParksLink: JsValue,
    mapLink: JsValue,
    videoLink: JsValue,
    status: string,
    capacity: JsValue)

  /** A submission: the park, its description and whether it is visible. */
  datatype PostObj = PostObj(park: ParkPayload, description: JsValue, visible: JsValue)

  /** The form fields a submission is built from. */
  const FormFields: set<string> := {
    "parkName", "parkOrcs", "parkSiteLink", "parkMapLink", "parkVideoLink",
    "parkStatus", "parkCapacity", "parkDescription", "parkVisibility"
  }

  /**
   * `formatFormResults`: renames the form fields into the submission and turns
   * the status checkbox into `'open'` (exactly `true`) or `'closed'` (anything else).
   * It reads nothing of the component and changes nothing.
   */
  function FormatFormResults(results: map<string, JsValue>): (post: PostObj)
    ensures post.park.status == "open" <==> Lookup(results, "parkStatus") == Bool(true)
    ensures post.park.status == "closed" <==> Lookup(results, "parkStatus") != Bool(true)
    ensures post.park.name == Lookup(results, "parkName")
    ensures post.park.orcs == Lookup(results, "parkOrcs")
    ensures post.park.bcParksLink == Lookup(results, "parkSiteLink")
    ensures post.park.mapLink == Lookup(results, "parkMapLink")
    ensures post.park.videoLink == Lookup(results, "parkVideoLink")
    ensures post.park.capacity == Lookup(results, "parkCapacity")
    ensures post.description == Lookup(results, "parkDescription")
    ensures post.visible == Lookup(results, "parkVisibility")
  {
    PostObj(
      ParkPayload(
        Lookup(results, "parkName"),
        Lookup(results, "parkOrcs"),
        Lookup(results, "parkSiteLink"),
        Lookup(results, "parkMapLink"),
        Lookup(results, "parkVideoLink"),
        if Lookup(results, "parkStatus") == Bool(true) then "open" else "closed",
        Lookup(results, "parkCapacity")),
      Lookup(results, "parkDescription"),
      Lookup(results, "parkVisibility"))
  }

  /** Only the nine form fields matter: forms that agree on them give the same submission. */
  lemma SubmissionReadsOnlyFormFields(a: map<string, JsValue>, b: map<string, JsValue>)
    requires forall f :: f in FormFields ==> Lookup(a, f) == Lookup(b, f)
    ensures FormatFormResults(a) == FormatFormResults(b)
  {
    assert Lookup(a, "parkStatus") == Lookup(b, "parkStatus");
  }

  /** `parkService.getCachedPark(key)`: the cached park, `None` when nothing is cached under `key`. */
  function CachedPark<P>(cache: map<JsValue, P>, key: JsValue): Option<P> {
    if key in cache then Some(cache[key]) else None
  }

  class FaqEditComponent<P> {
    /** The park being edited. */
    var park: Option<P>
    /** The form's data record, inherited from the base form component. */
    var data: Option<P>

    /**
     * Builds the component and subscribes to the current-park key. The key
     * stream replays its current value `initialKey` on subscription (`undefined`
     * when it has none), so the subscriber runs once before construction ends.
     */
    constructor (initialKey: JsValue, cache: map<JsValue, P>)
      ensures !Truthy(initialKey) ==> park.None? && data.None?
      ensures Truthy(initialKey) ==> park == CachedPark(cache, initialKey) && data == park
    {
      park := None;
      data := None;
      new;
      OnCurrentParkKey(initialKey, cache);
    }

    /**
     * The subscriber to the current-park key: a truthy key loads that park from
     * the cache into both `park` and `data`; a falsy one is ignored.
     */
    method OnCurrentParkKey(res: JsValue, cache: map<JsValue, P>)
      modifies this
      ensures !Truthy(res) ==> park == old(park) && data == old(data)
      ensures Truthy(res) ==> park == CachedPark(cache, res) && data == park
    {
      if Truthy(res) {
        park := CachedPark(cache, res);
        data := park;
      }
    }
  }
}
