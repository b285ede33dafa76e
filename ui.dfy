/** The UI store: whether the task slide-over is open and on which task,
    which modal is showing with which payload, whether the sidebar is
    collapsed, and the project selected in the sidebar. Each action sets
    one of these four parts and leaves the others alone. */
module Ui {
  import opened Common
  import opened Types
  import Tasks

  datatype ModalType =
    | CreateProject | EditProject | CreateCategory | EditCategory
    | CreateSubCategory | EditSubCategory | CreateTask | EditTask
    | DeleteConfirm | ImportData

  datatype Slideover = Slideover(isOpen: bool, taskId: Option<Id>)

  /** `payload` is a `Record<string, unknown>`, kept as the JSON values it holds. */
  datatype Modal = Modal(kind: Option<ModalType>, payload: Option<map<string, Tasks.Json>>)

  datatype UiState = UiState(
    taskSlideover: Slideover,
    modal: Modal,
    sidebarCollapsed: bool,
    selectedProjectId: Option<Id>)

  /** The actions the store offers. */
  datatype Action =
    | OpenTaskSlideover(taskId: Id)
    | CloseTaskSlideover
    | OpenModal(kind: Option<ModalType>, payload: Option<map<string, Tasks.Json>>)
    | CloseModal
    | ToggleSidebar
    | SetSelectedProjectId(projectId: Option<Id>)

  /** Slide-over closed on no task, no modal, sidebar expanded, no project selected. */
  function Initial(): UiState {
    UiState(Slideover(false, None), Modal(None, None), false, None)
  }

  /** The state after one action. */
  function Step(s: UiState, a: Action): UiState {
    match a
    case OpenTaskSlideover(id) => s.(taskSlideover := Slideover(true, Some(id)))
    case CloseTaskSlideover => s.(taskSlideover := Slideover(false, None))
    case OpenModal(k, p) => s.(modal := Modal(k, p))
    case CloseModal => s.(modal := Modal(None, None))
    case ToggleSidebar => s.(sidebarCollapsed := !s.sidebarCollapsed)
    case SetSelectedProjectId(p) => s.(selectedProjectId := p)
  }

  /** Which part of the state an action writes. */
  predicate WritesSlideover(a: Action) { a.OpenTaskSlideover? || a.CloseTaskSlideover? }
  predicate WritesModal(a: Action) { a.OpenModal? || a.CloseModal? }

  /** Every action changes only its own part of the state. */
  lemma StepFrame(s: UiState, a: Action)
    ensures !WritesSlideover(a) ==> Step(s, a).taskSlideover == s.taskSlideover
    ensures !WritesModal(a) ==> Step(s, a).modal == s.modal
    ensures !a.ToggleSidebar? ==> Step(s, a).sidebarCollapsed == s.sidebarCollapsed
    ensures !a.SetSelectedProjectId? ==> Step(s, a).selectedProjectId == s.selectedProjectId
  {
  }

  /** Opening shows the given task; closing hides the panel and forgets the
      task, whatever was open before, so close after open is plain close. */
  lemma SlideoverOpenClose(s: UiState, id: Id)
    ensures Step(s, OpenTaskSlideover(id)).taskSlideover.isOpen
    ensures Step(s, OpenTaskSlideover(id)).taskSlideover.taskId == Some(id)
    ensures Step(s, CloseTaskSlideover).taskSlideover == Initial().taskSlideover
    ensures Step(Step(s, OpenTaskSlideover(id)), CloseTaskSlideover) == Step(s, CloseTaskSlideover)
  {
  }

  /** Opening a modal records its type and payload; closing drops both. */
  lemma ModalOpenClose(s: UiState, k: Option<ModalType>, p: Option<map<string, Tasks.Json>>)
    ensures Step(s, OpenModal(k, p)).modal.kind == k && Step(s, OpenModal(k, p)).modal.payload == p
    ensures Step(s, CloseModal).modal == Initial().modal
    ensures Step(Step(s, OpenModal(k, p)), CloseModal) == Step(s, CloseModal)
  {
  }

  /** Toggling the sidebar flips it, and toggling twice changes nothing. */
  lemma ToggleSidebarTwice(s: UiState)
    ensures Step(s, ToggleSidebar).sidebarCollapsed != s.sidebarCollapsed
    ensures Step(Step(s, ToggleSidebar), ToggleSidebar) == s
  {
  }

  /** The state after a sequence of actions, applied in order. */
  function Run(s: UiState, actions: seq<Action>): UiState
    decreases |actions|
  {
    if actions == [] then s else Run(Step(s, actions[0]), actions[1..])
  }

  /** The number of sidebar toggles among the actions. */
  function Toggles(actions: seq<Action>): nat {
    if actions == [] then 0 else (if actions[0].ToggleSidebar? then 1 else 0) + Toggles(actions[1..])
  }

  /** An even number of sidebar toggles, with any other actions in between,
      leaves the sidebar as it was; an odd number flips it. */
  lemma {:induction false} SidebarParity(s: UiState, actions: seq<Action>)
    ensures Run(s, actions).sidebarCollapsed
      == (if Toggles(actions) % 2 == 0 then s.sidebarCollapsed else !s.sidebarCollapsed)
    decreases |actions|
  {
    if actions != [] {
      SidebarParity(Step(s, actions[0]), actions[1..]);
    }
  }

  /** The store object: one field per part of the state, one method per action. */
  class UiStore {
    var taskSlideover: Slideover
    var modal: Modal
    var sidebarCollapsed: bool
    var selectedProjectId: Option<Id>

    function State(): UiState
      reads this
    {
      UiState(taskSlideover, modal, sidebarCollapsed, selectedProjectId)
    }

    constructor ()
      ensures State() == Initial()
    {
      taskSlideover := Slideover(false, None);
      modal := Modal(None, None);
      sidebarCollapsed := false;
      selectedProjectId := None;
    }

    method OpenTaskSlideover(taskId: Id)
      modifies this`taskSlideover
      ensures taskSlideover == Slideover(true, Some(taskId))
      ensures State() == Step(old(State()), Action.OpenTaskSlideover(taskId))
    {
      taskSlideover := Slideover(true, Some(taskId));
    }

    method CloseTaskSlideover()
      modifies this`taskSlideover
      ensures taskSlideover == Slideover(false, None)
      ensures State() == Step(old(State()), Action.CloseTaskSlideover)
    {
      taskSlideover := Slideover(false, None);
    }

    method OpenModal(kind: Option<ModalType>, payload: Option<map<string, Tasks.Json>>)
      modifies this`modal
      ensures modal == Modal(kind, payload)
      ensures State() == Step(old(State()), Action.OpenModal(kind, payload))
    {
      modal := Modal(kind, payload);
    }

    method CloseModal()
      modifies this`modal
      ensures modal == Modal(None, None)
      ensures State() == Step(old(State()), Action.CloseModal)
    {
      modal := Modal(None, None);
    }

    method ToggleSidebar()
      modifies this`sidebarCollapsed
      ensures sidebarCollapsed == !old(sidebarCollapsed)
      ensures State() == Step(old(State()), Action.ToggleSidebar)
    {
      sidebarCollapsed := !sidebarCollapsed;
    }

    method SetSelectedProjectId(id: Option<Id>)
      modifies this`selectedProjectId
      ensures selectedProjectId == id
      ensures State() == Step(old(State()), Action.SetSelectedProjectId(id))
    {
      selectedProjectId := id;
    }
  }
}
