/** The item editor: a modal form whose working copy is filled from the item
    being edited, or from fixed defaults when creating, changed one field at
    a time, and handed to the caller on submit unless the title is blank. */
module LearningModal {
  import Items
  import opened Text

  /** The editor's working copy, `formData`. */
  datatype FormData = FormData(title: string, itemType: string, link: string, status: string, notes: string)

  /** The `name` attributes of the form's five inputs. */
  datatype Field = Title | Type | Link | Status | Notes

  /** The form of a new item. */
  const DEFAULT_FORM: FormData := FormData("", "Course", "", Items.STARTED, "")

  /** `value || ''` for an optional string: absent and empty both give `''`. */
  function OrEmpty(o: Items.Option<string>): string {
    match o
    case Some(s) => s
    case None => ""
  }

  /** The working copy the form is (re)initialised to. Opening on an item
      copies its title, type and status as they are and its link and notes
      when present, `''` otherwise; opening on no item gives an empty title,
      type Course, status Started and empty link and notes. */
  function InitialForm(item: Items.Option<Items.LearningItem>): (f: FormData)
    ensures item.Some? ==>
      && f.title == item.value.title && f.itemType == item.value.itemType && f.status == item.value.status
      && (item.value.link.Some? ==> f.link == item.value.link.value)
      && (item.value.link.None? ==> f.link == "")
      && (item.value.notes.Some? ==> f.notes == item.value.notes.value)
      && (item.value.notes.None? ==> f.notes == "")
    ensures item.None? ==> f.title == "" && f.itemType == "Course" && f.link == "" && f.status == "Started" && f.notes == ""
  {
    match item
    case Some(it) => FormData(it.title, it.itemType, OrEmpty(it.link), it.status, OrEmpty(it.notes))
    case None => DEFAULT_FORM
  }

  /** The value the named input shows. */
  function Get(f: FormData, k: Field): string {
    match k
    case Title => f.title
    case Type => f.itemType
    case Link => f.link
    case Status => f.status
    case Notes => f.notes
  }

  /** `handleChange`'s `{...formData, [name]: value}`: the named field takes
      the new value and every other field keeps its value. */
  function WithField(f: FormData, k: Field, v: string): (g: FormData)
    ensures Get(g, k) == v
    ensures forall k' :: k' != k ==> Get(g, k') == Get(f, k')
  {
    match k
    case Title => f.(title := v)
    case Type => f.(itemType := v)
    case Link => f.(link := v)
    case Status => f.(status := v)
    case Notes => f.(notes := v)
  }

  /** A form is determined by the values of its five fields. */
  lemma FieldsDetermineForm(f: FormData, g: FormData)
    requires forall k :: Get(f, k) == Get(g, k)
    ensures f == g
  {
    assert Get(f, Title) == Get(g, Title) && Get(f, Type) == Get(g, Type) && Get(f, Link) == Get(g, Link);
    assert Get(f, Status) == Get(g, Status) && Get(f, Notes) == Get(g, Notes);
  }

  /** Writing a field its own value changes nothing, the last of two writes
      to one field wins, and writes to different fields commute. */
  lemma WithFieldLaws(f: FormData, k: Field, k': Field, v: string, w: string)
    ensures WithField(f, k, Get(f, k)) == f
    ensures WithField(WithField(f, k, v), k, w) == WithField(f, k, w)
    ensures k != k' ==> WithField(WithField(f, k, v), k', w) == WithField(WithField(f, k', w), k, v)
  {
    FieldsDetermineForm(WithField(f, k, Get(f, k)), f);
    FieldsDetermineForm(WithField(WithField(f, k, v), k, w), WithField(f, k, w));
    if k != k' {
      FieldsDetermineForm(WithField(WithField(f, k, v), k', w), WithField(WithField(f, k', w), k, v));
    }
  }

  /** `handleSubmit`'s guard: what `onSave` receives, or `None` when it is
      not called. It is called exactly when the title holds some
      non-whitespace character, and then with the form as it is, title
      untrimmed. */
  function SubmitPayload(f: FormData): (r: Items.Option<FormData>)
    ensures r.None? <==> forall i :: 0 <= i < |f.title| ==> IsWhitespace(f.title[i])
    ensures r.Some? ==> r.value == f
  {
    BlankIff(f.title);
    if IsBlank(f.title) then Items.None else Items.Some(f)
  }

  /** Submitting a fresh create form does not call `onSave`. */
  lemma DefaultFormIsNotSubmitted()
    ensures SubmitPayload(DEFAULT_FORM) == Items.None
  {
  }

  /** What the component renders when open. */
  datatype ModalView = ModalView(heading: string, submitLabel: string, form: FormData)

  class Modal {
    /** The `isOpen` and `item` props. */
    var isOpen: bool
    var item: Items.Option<Items.LearningItem>
    /** The `formData` state. */
    var formData: FormData

    /** Mounting: the effect runs after the first render and initialises the
        form from the `item` prop. */
    constructor (isOpen: bool, item: Items.Option<Items.LearningItem>)
      ensures this.isOpen == isOpen && this.item == item
      ensures formData == InitialForm(item)
    {
      this.isOpen := isOpen;
      this.item := item;
      formData := InitialForm(item);
    }

    /** A re-render with new props: the effect, whose dependencies are
        `[item, isOpen]`, re-initialises the form only when one of them
        changed; otherwise the edits in progress stay. */
    method ReceiveProps(newIsOpen: bool, newItem: Items.Option<Items.LearningItem>)
      modifies this
      ensures isOpen == newIsOpen && item == newItem
      ensures formData == (if newIsOpen != old(isOpen) || newItem != old(item) then InitialForm(newItem)
                           else old(formData))
    {
      var changed := newIsOpen != isOpen || newItem != item;
      isOpen := newIsOpen;
      item := newItem;
      if changed {
        formData := InitialForm(newItem);
      }
    }

    /** `handleChange` for the input named `field`. */
    method HandleChange(field: Field, value: string)
      modifies this`formData
      ensures formData == WithField(old(formData), field, value)
    {
      formData := WithField(formData, field, value);
    }

    /** `handleSubmit`: returns the one argument `onSave` is called with, or
        `None` when the title is blank. It changes no state: the form stays
        as it is and the modal does not close itself. */
    method HandleSubmit() returns (saved: Items.Option<FormData>)
      ensures saved == SubmitPayload(formData)
      ensures saved.None? <==> IsBlank(formData.title)
      ensures saved.Some? ==> saved.value == formData
    {
      saved := SubmitPayload(formData);
    }

    /** The component's output: nothing when closed; otherwise a heading and
        a submit label that depend on whether an item is being edited, over
        the current form. */
    function View(): (v: Items.Option<ModalView>)
      reads this
      ensures v.None? <==> !isOpen
      ensures v.Some? ==> v.value.form == formData
      ensures v.Some? ==> (v.value.heading == "Edit Learning Item" <==> item.Some?)
      ensures v.Some? ==> (v.value.submitLabel == "Update Item" <==> item.Some?)
    {
      if !isOpen then Items.None
      else if item.Some? then Items.Some(ModalView("Edit Learning Item", "Update Item", formData))
      else Items.Some(ModalView("Add New Learning Item", "Create Item", formData))
    }
  }
}
