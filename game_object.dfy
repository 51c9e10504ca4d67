/**
 * AbstractObjectBase.java and GameObjectManager.java: game objects with a
 * size, a rounded position and the render/tick distance rule, and the manager
 * that registers them, draws them on a canvas and answers collision queries.
 */
module GameObjects {
  import opened Wrappers
  import opened Seqs
  import opened Geometry
  import opened Rendering
  import JavaLang

  /** The size used for a requested width or height below 1. */
  const DEFAULT_SIZE: int := 20

  /** A requested width or height: values below 1 become 20, others are kept. */
  function ResolveSize(n: int): (r: int)
    ensures r >= 1
    ensures n >= 1 ==> r == n
    ensures n < 1 ==> r == DEFAULT_SIZE
  {
    if n < 1 then DEFAULT_SIZE else n
  }

  /** The renderer's window size. */
  datatype Window = Window(width: int, height: int)

  /**
   * The distance of the rounded position (x, y) from the window's centre: the
   * larger of the two axis distances, with the centre found by int division.
   */
  function Distance(x: int, y: int, w: Window): (d: nat)
    ensures d >= JavaLang.Abs(x - JavaLang.Div(w.width, 2)) && d >= JavaLang.Abs(y - JavaLang.Div(w.height, 2))
    ensures d == JavaLang.Abs(x - JavaLang.Div(w.width, 2)) || d == JavaLang.Abs(y - JavaLang.Div(w.height, 2))
  {
    var dx := JavaLang.Abs(x - JavaLang.Div(w.width, 2));
    var dy := JavaLang.Abs(y - JavaLang.Div(w.height, 2));
    if dx < dy then dy else dx
  }

  /** The distance is the chessboard distance: within `r` exactly when the square of radius `r` around the centre holds the position. */
  lemma DistanceWithin(x: int, y: int, w: Window, r: int)
    ensures Distance(x, y, w) <= r <==>
      (JavaLang.Div(w.width, 2) - r <= x <= JavaLang.Div(w.width, 2) + r &&
       JavaLang.Div(w.height, 2) - r <= y <= JavaLang.Div(w.height, 2) + r)
  {
  }

  /** The fields the constructor sets, as values: the rounded position, the size and the two flags. */
  datatype Fields = Fields(x: int, y: int, width: int, height: int, visible: bool, disabled: bool)

  /**
   * The first statement of onPositionChange: it reads the `position` field for
   * the old coordinates and hands them to updateAttachments, which locks the
   * attachment set. Either field being null throws NullPointerException (None);
   * otherwise the old position comes back.
   */
  function HookOldPosition(position: Option<Point>, attachmentsSet: bool): (r: Option<Point>)
    ensures r.Some? <==> position.Some? && attachmentsSet
    ensures r.Some? ==> r == position
  {
    if position.Some? && attachmentsSet then position else None
  }

  /**
   * The constructor as written, for an object that keeps the base
   * onPositionChange (as PhysicalObject does). The position vector is an
   * anonymous subclass whose `set` runs onPositionChange first, and its copy
   * constructor calls `set`; that happens before `this.position` (and
   * `this.attachments`) are assigned, so the hook sees both fields null. None is
   * the NullPointerException that ends construction. A subclass whose override
   * of the hook never reaches the base one is not covered.
   */
  function ConstructAsWritten(x: int, y: int, width: int, height: int): (r: Option<Fields>)
    ensures r.Some? ==> r.value == Fields(x, y, ResolveSize(width), ResolveSize(height), true, false)
  {
    match HookOldPosition(None, false)
    case None => None
    case Some(_) => Some(Fields(x, y, ResolveSize(width), ResolveSize(height), true, false))
  }

  /** As written, constructing any game object that keeps the base hook throws. */
  lemma ConstructorAlwaysThrows(x: int, y: int, width: int, height: int)
    ensures ConstructAsWritten(x, y, width, height) == None
  {
  }

  /**
   * A game object. Its position is the rounded one the distance rule and the hit
   * box use; the renderable is what it puts on the canvas (it keeps the default layer).
   */
  class GameObject {
    const renderable: Renderable
    var x: int
    var y: int
    var width: int
    var height: int
    var visible: bool
    var disabled: bool
    var tickDistance: int
    var renderDistance: int
    var manager: GameObjectManager?

    constructor (id: nat, priority: Priority, x: int, y: int, width: int, height: int)
      ensures renderable == Renderable(id, priority, DEFAULT_LAYER)
      ensures this.x == x && this.y == y
      ensures this.width == ResolveSize(width) && this.height == ResolveSize(height)
      ensures visible && !disabled
      ensures tickDistance == 0 && renderDistance == 0 && manager == null
      ensures Bounds() == Rect(x, y, ResolveSize(width), ResolveSize(height))
    {
      renderable := Renderable(id, priority, DEFAULT_LAYER);
      this.x := x;
      this.y := y;
      this.width := ResolveSize(width);
      this.height := ResolveSize(height);
      visible := true;
      disabled := false;
      tickDistance := 0;
      renderDistance := 0;
      manager := null;
    }

    /** getHitBox: the box at the rounded position with the current size. */
    function Bounds(): Rect
      reads this
    {
      Rect(x, y, width, height)
    }

    /**
     * onPositionChange, run before the position is set: with a manager and a
     * window width above -1, the distance of the current (not yet moved) position
     * sets `visible` and `disabled` where their limits are positive.
     */
    method OnPositionChange(newX: int, newY: int, window: Window)
      modifies this`visible, this`disabled
      ensures manager == null || window.width <= -1 ==> visible == old(visible) && disabled == old(disabled)
      ensures manager != null && window.width > -1 ==>
        (visible == (if renderDistance > 0 then Distance(x, y, window) < renderDistance else old(visible)) &&
         disabled == (if tickDistance > 0 then Distance(x, y, window) > tickDistance else old(disabled)))
    {
      if manager == null || window.width <= -1 {
        return;
      }
      var distance := Distance(x, y, window);
      if renderDistance > 0 {
        visible := distance < renderDistance;
      }
      if tickDistance > 0 {
        disabled := distance > tickDistance;
      }
    }

    /**
     * Setting the position: the hook first, then the new coordinates. With a
     * positive tick distance the object ends up disabled exactly when its old
     * position lies outside the square of that radius around the window centre.
     */
    method SetPosition(newX: int, newY: int, window: Window)
      modifies this`visible, this`disabled, this`x, this`y
      ensures x == newX && y == newY
      ensures manager == null || window.width <= -1 ==> visible == old(visible) && disabled == old(disabled)
      ensures manager != null && window.width > -1 ==>
        (visible == (if renderDistance > 0 then Distance(old(x), old(y), window) < renderDistance else old(visible)) &&
         disabled == (if tickDistance > 0 then Distance(old(x), old(y), window) > tickDistance else old(disabled)))
      ensures manager != null && window.width > -1 && tickDistance > 0 ==>
        (disabled <==> !(JavaLang.Div(window.width, 2) - tickDistance <= old(x) <= JavaLang.Div(window.width, 2) + tickDistance &&
                         JavaLang.Div(window.height, 2) - tickDistance <= old(y) <= JavaLang.Div(window.height, 2) + tickDistance))
    {
      DistanceWithin(x, y, window, tickDistance);
      OnPositionChange(newX, newY, window);
      x := newX;
      y := newY;
    }

    /** internalUpdate: `updated` says whether onUpdate ran, which it does exactly when the object is not disabled. */
    method InternalUpdate() returns (updated: bool)
      ensures updated == !disabled
    {
      if disabled {
        return false;
      }
      updated := true;
    }

    /**
     * internalCreate: records the manager and sets both distances to half the
     * screen width plus the object's width plus 200.
     */
    method InternalCreate(m: GameObjectManager, screenWidth: int)
      modifies this`manager, this`tickDistance, this`renderDistance
      ensures manager == m
      ensures tickDistance == JavaLang.Div(screenWidth, 2) + width + 200
      ensures renderDistance == tickDistance
    {
      manager := m;
      tickDistance := JavaLang.Div(screenWidth, 2) + width + 200;
      renderDistance := tickDistance;
    }
  }

  /** The registered objects, the canvas they are drawn on, and the 1x1 box used to find objects at a point. */
  class GameObjectManager {
    var gameObjects: set<GameObject>
    const canvas: Canvas
    const posFinder: HitBox

    constructor (canvas: Canvas)
      ensures gameObjects == {} && this.canvas == canvas
      ensures fresh(posFinder) && Valid()
    {
      gameObjects := {};
      this.canvas := canvas;
      posFinder := new HitBox(0, 0, 1, 1);
    }

    /** The position finder keeps its 1x1 size. */
    predicate Valid()
      reads this, posFinder
    {
      posFinder.width == 1 && posFinder.height == 1
    }

    /** The registered objects whose box intersects `box` (edges touching count). */
    function Intersecting(box: Rect): set<GameObject>
      reads this, gameObjects
    {
      set o | o in gameObjects && Overlaps(o.Bounds(), box)
    }

    /** addGameObject: registers `g`, initialises it for this manager and puts it on the canvas. */
    method AddGameObject(g: GameObject, screenWidth: int)
      modifies this`gameObjects, g`manager, g`tickDistance, g`renderDistance, canvas`renderables
      ensures gameObjects == old(gameObjects) + {g}
      ensures g.manager == this && g.tickDistance == JavaLang.Div(screenWidth, 2) + g.width + 200
      ensures g.renderDistance == g.tickDistance
      ensures canvas.renderables == Arrange(old(canvas.renderables) + [g.renderable])
    {
      gameObjects := gameObjects + {g};
      g.InternalCreate(this, screenWidth);
      canvas.AddRenderable(g.renderable);
    }

    /** removeGameObject: unregisters `g` and takes it off the canvas. */
    method RemoveGameObject(g: GameObject)
      modifies this`gameObjects, canvas`renderables
      ensures gameObjects == old(gameObjects) - {g}
      ensures canvas.renderables == Arrange(RemoveFirst(old(canvas.renderables), g.renderable))
    {
      gameObjects := gameObjects - {g};
      canvas.RemoveRenderable(g.renderable);
    }

    /** containsGameObject. */
    method ContainsGameObject(g: GameObject) returns (b: bool)
      ensures b <==> g in gameObjects
    {
      b := g in gameObjects;
    }

    /** collides: whether some registered object's box intersects that of `g`, `g` itself included. */
    method Collides(g: GameObject) returns (b: bool)
      ensures b <==> Intersecting(g.Bounds()) != {}
    {
      var rest := gameObjects;
      b := false;
      while rest != {} && !b
        invariant rest <= gameObjects
        invariant b ==> Intersecting(g.Bounds()) != {}
        invariant !b ==> forall o :: o in gameObjects - rest ==> !Overlaps(o.Bounds(), g.Bounds())
        decreases rest
      {
        var o :| o in rest;
        if Overlaps(o.Bounds(), g.Bounds()) {
          assert o in Intersecting(g.Bounds());
          b := true;
        }
        rest := rest - {o};
      }
      if !b {
        assert forall o :: o in gameObjects ==> !Overlaps(o.Bounds(), g.Bounds());
      }
    }

    /**
     * getCollisions: nothing when `g` collides with nothing, and otherwise each
     * registered object whose box intersects that of `g`, once, in the set's
     * iteration order.
     */
    method GetCollisions(g: GameObject) returns (collisions: seq<GameObject>)
      ensures (collisions == []) <==> Intersecting(g.Bounds()) == {}
      ensures (set o | o in collisions) == Intersecting(g.Bounds())
      ensures Distinct(collisions)
    {
      var any := Collides(g);
      if !any {
        return [];
      }
      collisions := Collect(g.Bounds());
    }

    /** getObjectsAt: the registered objects whose box intersects the 1x1 box at (x, y). */
    method GetObjectsAt(x: int, y: int) returns (found: seq<GameObject>)
      requires Valid()
      modifies posFinder`x, posFinder`y
      ensures Valid() && posFinder.Bounds() == Rect(x, y, 1, 1)
      ensures (set o | o in found) == Intersecting(Rect(x, y, 1, 1))
      ensures Distinct(found)
    {
      posFinder.x := x;
      posFinder.y := y;
      found := Collect(posFinder.Bounds());
    }

    /** The registered objects intersecting `box`, each once, in iteration order. */
    method Collect(box: Rect) returns (found: seq<GameObject>)
      ensures (set o | o in found) == Intersecting(box)
      ensures Distinct(found)
    {
      var rest := gameObjects;
      found := [];
      while rest != {}
        invariant rest <= gameObjects
        invariant (set o | o in found) == Intersecting(box) - rest
        invariant Distinct(found)
        invariant forall o :: o in found ==> o !in rest
        decreases rest
      {
        var o :| o in rest;
        if Overlaps(o.Bounds(), box) {
          DistinctAppend(found, o);
          assert (set p | p in found + [o]) == (set p | p in found) + {o};
          found := found + [o];
        } else {
          assert o !in Intersecting(box);
        }
        rest := rest - {o};
      }
    }

    /** tick: internalUpdate on each registered object; `updated` are those whose onUpdate ran. */
    method Tick() returns (updated: set<GameObject>)
      ensures updated == set o | o in gameObjects && !o.disabled
    {
      var rest := gameObjects;
      updated := {};
      while rest != {}
        invariant rest <= gameObjects
        invariant updated == set o | o in gameObjects - rest && !o.disabled
        decreases rest
      {
        var o :| o in rest;
        var ran := o.InternalUpdate();
        if ran {
          updated := updated + {o};
        }
        rest := rest - {o};
      }
    }

    /** getGameObjects: a copy of the registered objects. */
    method GetGameObjects() returns (copy: set<GameObject>)
      ensures copy == gameObjects
    {
      copy := gameObjects;
    }
  }

  /** A registered object always collides with itself, since its size is positive. */
  lemma RegisteredCollidesWithItself(m: GameObjectManager, g: GameObject)
    requires g in m.gameObjects && g.width >= 1 && g.height >= 1
    ensures g in m.Intersecting(g.Bounds())
  {
    OverlapsSelf(g.Bounds());
  }
}
